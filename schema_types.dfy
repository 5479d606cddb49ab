/**
 * Type validation of a setter's OpenAPI schema (validateSchema and
 * validateSchemaTypes in kyaml/setters2/settersutil/settercreator.go).
 * The schema arrives here already parsed: a node's declared type tags and its
 * optional `items`, which hold a single item schema, a tuple-style sequence of
 * item schemas, or both.
 */
module SchemaTypes {
  import opened Wrappers

  datatype Schema = Schema(types: seq<string>, items: Option<Items>)

  datatype Items = Items(schema: Option<Schema>, schemas: seq<Schema>)

  datatype SchemaError =
    | Unparseable                       // the schema text is not a JSON schema
    | MultipleTypes(types: seq<string>) // a node declares more than one type
    | UnsupportedType(typeName: string) // a node's one type is not a recognised tag

  /** The type tags recognised by the OpenAPI validation library, in the source's order. */
  const ValidTypeValues: seq<string> :=
    ["object", "array", "string", "integer", "number", "boolean", "file", "null"]

  /** The membership loop of validateSchemaTypes: does `t` equal one of the recognised tags? */
  method IsValidType(t: string) returns (matched: bool)
    ensures matched <==> t in ValidTypeValues
  {
    matched := false;
    for i := 0 to |ValidTypeValues|
      invariant matched <==> t in ValidTypeValues[..i]
    {
      if t == ValidTypeValues[i] {
        matched := true;
      }
    }
  }

  /** The error a node's own type tags cause, ignoring its items. */
  function NodeError(sc: Schema): (r: Option<SchemaError>)
    ensures r.None? <==> |sc.types| == 0 || (|sc.types| == 1 && sc.types[0] in ValidTypeValues)
    ensures r.Some? ==> r.value.MultipleTypes? || r.value.UnsupportedType?
  {
    if |sc.types| > 1 then Some(MultipleTypes(sc.types))
    else if |sc.types| == 1 && sc.types[0] !in ValidTypeValues then Some(UnsupportedType(sc.types[0]))
    else None
  }

  /**
   * validateSchemaTypes: the node's own tags first, then the single item schema,
   * then the tuple item schemas left to right; the first error found is returned.
   */
  function ValidateSchemaTypes(sc: Schema): (r: Outcome<SchemaError>)
    ensures |sc.types| > 1 ==> r == Fail(MultipleTypes(sc.types))
    ensures r.Pass? ==> NodeError(sc).None?
    ensures NodeError(sc).None? && sc.items.None? ==> r.Pass?
    ensures r.Fail? ==> r.error.MultipleTypes? || r.error.UnsupportedType?
    decreases sc, 1
  {
    match NodeError(sc)
    case Some(e) => Fail(e)
    case None =>
      match sc.items
      case None => Pass
      case Some(items) =>
        var first := if items.schema.Some? then ValidateSchemaTypes(items.schema.value) else Pass;
        if first.Fail? then first else ValidateEach(items.schemas)
  }

  /** The loop over `items.Schemas`: validate each in turn, stopping at the first error. */
  function ValidateEach(schemas: seq<Schema>): (r: Outcome<SchemaError>)
    ensures r.Fail? ==> r.error.MultipleTypes? || r.error.UnsupportedType?
    decreases schemas, 0
  {
    if |schemas| == 0 then Pass
    else
      var r := ValidateSchemaTypes(schemas[0]);
      if r.Fail? then r else ValidateEach(schemas[1..])
  }

  /** validateSchema: a schema that does not parse is rejected before any type is looked at. */
  function ValidateSchema(parsed: Option<Schema>): (r: Outcome<SchemaError>)
    ensures parsed.None? <==> r == Fail(Unparseable)
    ensures parsed.Some? ==> r == ValidateSchemaTypes(parsed.value)
  {
    match parsed
    case None => Fail(Unparseable)
    case Some(sc) => ValidateSchemaTypes(sc)
  }

  // ---------------------------------------------------------------------------
  // Declarative reading: every node of the tree is well typed.

  /** Every node reachable through `items` declares at most one type, and a recognised one. */
  predicate WellTyped(sc: Schema)
    decreases sc
  {
    && NodeError(sc).None?
    && (sc.items.Some? ==>
         && (sc.items.value.schema.Some? ==> WellTyped(sc.items.value.schema.value))
         && (forall s :: s in sc.items.value.schemas ==> WellTyped(s)))
  }

  /** The validator accepts exactly the well-typed schemas, at any nesting depth. */
  lemma {:induction false} ValidateIffWellTyped(sc: Schema)
    ensures ValidateSchemaTypes(sc).Pass? <==> WellTyped(sc)
    decreases sc, 1
  {
    if NodeError(sc).None? && sc.items.Some? {
      var items := sc.items.value;
      if items.schema.Some? {
        ValidateIffWellTyped(items.schema.value);
      }
      ValidateEachIffAllWellTyped(items.schemas);
    }
  }

  lemma {:induction false} ValidateEachIffAllWellTyped(schemas: seq<Schema>)
    ensures ValidateEach(schemas).Pass? <==> forall s :: s in schemas ==> WellTyped(s)
    decreases schemas, 0
  {
    if |schemas| > 0 {
      ValidateIffWellTyped(schemas[0]);
      ValidateEachIffAllWellTyped(schemas[1..]);
      assert forall s :: s in schemas <==> s == schemas[0] || s in schemas[1..];
    }
  }

  // ---------------------------------------------------------------------------
  // Order of checking: a pre-order walk of the tree, first failing node wins.

  /** The nodes of the tree in the order the validator visits them. */
  function Nodes(sc: Schema): (r: seq<Schema>)
    ensures |r| >= 1 && r[0] == sc
    decreases sc, 1
  {
    [sc] +
    match sc.items
    case None => []
    case Some(items) =>
      (if items.schema.Some? then Nodes(items.schema.value) else []) + NodesEach(items.schemas)
  }

  function NodesEach(schemas: seq<Schema>): seq<Schema>
    decreases schemas, 0
  {
    if |schemas| == 0 then [] else Nodes(schemas[0]) + NodesEach(schemas[1..])
  }

  /** Scans a list of nodes and reports the own-type error of the first bad one. */
  function FirstNodeError(nodes: seq<Schema>): (r: Outcome<SchemaError>)
    ensures r.Pass? <==> forall i :: 0 <= i < |nodes| ==> NodeError(nodes[i]).None?
    ensures r.Fail? ==> exists i :: 0 <= i < |nodes| && NodeError(nodes[i]) == Some(r.error)
                                    && forall j :: 0 <= j < i ==> NodeError(nodes[j]).None?
  {
    if |nodes| == 0 then Pass
    else match NodeError(nodes[0])
      case Some(e) => Fail(e)
      case None =>
        var r := FirstNodeError(nodes[1..]);
        assert forall i :: 1 <= i < |nodes| ==> nodes[i] == nodes[1..][i - 1];
        r
  }

  lemma {:induction false} FirstNodeErrorAppend(a: seq<Schema>, b: seq<Schema>)
    ensures FirstNodeError(a + b) == if FirstNodeError(a).Fail? then FirstNodeError(a) else FirstNodeError(b)
  {
    if |a| > 0 {
      assert (a + b)[1..] == a[1..] + b;
      FirstNodeErrorAppend(a[1..], b);
    } else {
      assert a + b == b;
    }
  }

  /**
   * The validator returns the own-type error of the first bad node in pre-order
   * (node, then its item schema's subtree, then each tuple item's subtree), and
   * passes when there is none.
   */
  lemma {:induction false} ValidateFindsFirstInPreorder(sc: Schema)
    ensures ValidateSchemaTypes(sc) == FirstNodeError(Nodes(sc))
    decreases sc, 1
  {
    var rest := match sc.items
      case None => []
      case Some(items) =>
        (if items.schema.Some? then Nodes(items.schema.value) else []) + NodesEach(items.schemas);
    assert Nodes(sc) == [sc] + rest;
    assert ([sc] + rest)[1..] == rest;
    if NodeError(sc).None? && sc.items.Some? {
      var items := sc.items.value;
      var head := if items.schema.Some? then Nodes(items.schema.value) else [];
      if items.schema.Some? {
        ValidateFindsFirstInPreorder(items.schema.value);
      }
      ValidateEachFindsFirstInPreorder(items.schemas);
      FirstNodeErrorAppend(head, NodesEach(items.schemas));
    }
  }

  lemma {:induction false} ValidateEachFindsFirstInPreorder(schemas: seq<Schema>)
    ensures ValidateEach(schemas) == FirstNodeError(NodesEach(schemas))
    decreases schemas, 0
  {
    if |schemas| > 0 {
      ValidateFindsFirstInPreorder(schemas[0]);
      ValidateEachFindsFirstInPreorder(schemas[1..]);
      FirstNodeErrorAppend(Nodes(schemas[0]), NodesEach(schemas[1..]));
    }
  }

  /** Well typed means: every node the validator visits passes its own check. */
  lemma WellTypedIffEveryNodeOk(sc: Schema)
    ensures WellTyped(sc) <==> forall n :: n in Nodes(sc) ==> NodeError(n).None?
  {
    ValidateIffWellTyped(sc);
    ValidateFindsFirstInPreorder(sc);
    var ns := Nodes(sc);
    assert forall n :: n in ns <==> exists i :: 0 <= i < |ns| && ns[i] == n;
  }

  // ---------------------------------------------------------------------------
  // Nesting: a bad node anywhere below an array is found.

  /** A node that declares two or more types is rejected whatever its items hold. */
  lemma MultipleTypesRejectedAnywhere(sc: Schema, i: nat)
    requires i < |Nodes(sc)| && |Nodes(sc)[i].types| > 1
    ensures ValidateSchemaTypes(sc).Fail?
  {
    WellTypedIffEveryNodeOk(sc);
    ValidateIffWellTyped(sc);
    assert Nodes(sc)[i] in Nodes(sc);
  }
}
