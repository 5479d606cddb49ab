/**
 * The value-add filter pinned down by the table tests of
 * api/filters/valueadd/valueadd_test.go: a `/`-separated field path names a
 * nested mapping field, created when missing; the field's scalar is replaced by
 * the value, or, with a non-zero FilePathPosition, the value is inserted as one
 * more `/`-separated segment of the current scalar. Positions are 1-based:
 * 1 makes the value the first segment, a position past the last segment makes
 * it the last, and 0 means plain replacement.
 */
module ValueAdd {
  import opened Wrappers
  import opened Segments

  /** A document as a tree: scalars, and mappings whose fields keep their order. */
  datatype Node = Scalar(value: string) | Mapping(fields: seq<Field>)

  datatype Field = Field(key: string, node: Node)

  /** The filter's options: the value to add, the field path, and the 1-based position (0: replace). */
  datatype Filter = Filter(value: string, fieldPath: string, filePathPosition: nat)

  datatype PathError =
    | NotAMapping(key: string) // a node on the way to the field is a scalar
    | NotAScalar               // the field exists and is a mapping

  const PathSeparator: char := '/'

  // ---------------------------------------------------------------------------
  // Splicing a value into a `/`-separated scalar.

  /** The index a 1-based position becomes once clamped to the number of segments. */
  function InsertIndex(count: nat, pos: nat): (j: nat)
    requires pos >= 1
    ensures j <= count
    ensures j == pos - 1 || (j == count && pos - 1 > count)
  {
    if pos - 1 < count then pos - 1 else count
  }

  /** Inserts `value` as a new segment before segment `j`; nothing is dropped or moved. */
  function InsertSegment(segs: seq<string>, value: string, j: nat): (r: seq<string>)
    requires j <= |segs|
    ensures |r| == |segs| + 1 && r[j] == value
    ensures r[..j] == segs[..j] && r[j + 1..] == segs[j..]
  {
    segs[..j] + [value] + segs[j..]
  }

  /**
   * The new scalar of the target field, given its current scalar (None when the
   * field is created). Position 0, a created field and an empty scalar all give
   * the value itself.
   */
  function SpliceValue(existing: Option<string>, value: string, pos: nat): (r: string)
    ensures pos == 0 || existing.None? || existing == Some("") ==> r == value
  {
    if pos == 0 || existing.None? || existing.value == "" then value
    else
      var segs := Split(existing.value, PathSeparator);
      Join(InsertSegment(segs, value, InsertIndex(|segs|, pos)), PathSeparator)
  }

  /**
   * Splicing keeps every existing segment, in order: the segments of the result
   * are those of the old scalar with the value inserted at the clamped position.
   */
  lemma SpliceKeepsSegments(existing: string, value: string, pos: nat)
    requires existing != "" && pos >= 1 && NoSeparator(value, PathSeparator)
    ensures var segs := Split(existing, PathSeparator);
            var j := InsertIndex(|segs|, pos);
            var out := Split(SpliceValue(Some(existing), value, pos), PathSeparator);
            && |out| == |segs| + 1
            && out[j] == value
            && out[..j] + out[j + 1..] == segs
  {
    var segs := Split(existing, PathSeparator);
    var j := InsertIndex(|segs|, pos);
    var ins := InsertSegment(segs, value, j);
    forall i | 0 <= i < |ins| ensures NoSeparator(ins[i], PathSeparator) {
      if i < j {
        assert ins[i] == segs[i];
      } else if i > j {
        assert ins[i] == ins[j + 1..][i - j - 1] == segs[i - 1];
      }
    }
    SplitJoin(ins, PathSeparator);
    assert ins[..j] + ins[j + 1..] == segs[..j] + segs[j..] == segs;
  }

  /** Position 1 puts the value in front: `value/existing`. */
  lemma SplicePrefix(existing: string, value: string)
    requires existing != ""
    ensures SpliceValue(Some(existing), value, 1) == value + [PathSeparator] + existing
  {
    var segs := Split(existing, PathSeparator);
    assert InsertSegment(segs, value, 0) == [value] + segs;
    JoinCons(value, segs, PathSeparator);
    JoinSplit(existing, PathSeparator);
  }

  /** A position past the last segment puts the value at the end: `existing/value`. */
  lemma SplicePostfix(existing: string, value: string, pos: nat)
    requires existing != "" && pos > |Split(existing, PathSeparator)|
    ensures SpliceValue(Some(existing), value, pos) == existing + [PathSeparator] + value
  {
    var segs := Split(existing, PathSeparator);
    assert InsertSegment(segs, value, |segs|) == segs + [value];
    JoinAppend(segs, [value], PathSeparator);
    JoinSplit(existing, PathSeparator);
  }

  /** A position k with 1 < k <= n puts the value between segments k - 1 and k (1-based). */
  lemma SpliceMiddle(existing: string, value: string, pos: nat)
    requires existing != "" && 1 < pos <= |Split(existing, PathSeparator)|
    ensures var segs := Split(existing, PathSeparator);
            SpliceValue(Some(existing), value, pos) ==
              Join(segs[..pos - 1], PathSeparator) + [PathSeparator] + value + [PathSeparator]
              + Join(segs[pos - 1..], PathSeparator)
  {
    var segs := Split(existing, PathSeparator);
    var j := pos - 1;
    assert InsertSegment(segs, value, j) == segs[..j] + ([value] + segs[j..]);
    JoinAppend(segs[..j], [value] + segs[j..], PathSeparator);
    JoinCons(value, segs[j..], PathSeparator);
  }

  /**
   * Segments are those of strings.Split: a leading `/` gives an empty first
   * segment, which counts as a position like any other.
   */
  lemma LeadingSeparatorIsASegment()
    ensures Split("/pie", PathSeparator) == ["", "pie"]
    ensures SpliceValue(Some("/pie"), "v", 1) == "v//pie"
  {
    SplicePrefix("/pie", "v");
  }

  // ---------------------------------------------------------------------------
  // Finding and creating the field a path names.

  /** The keys of a mapping's fields, in order. */
  function Keys(fields: seq<Field>): (ks: seq<string>)
    ensures |ks| == |fields| && forall i :: 0 <= i < |fields| ==> ks[i] == fields[i].key
  {
    if |fields| == 0 then [] else [fields[0].key] + Keys(fields[1..])
  }

  /** The position of the first field with this key, if any. */
  function FieldIndex(fields: seq<Field>, key: string): (r: Option<nat>)
    ensures r.Some? ==> r.value < |fields| && fields[r.value].key == key
                        && forall j :: 0 <= j < r.value ==> fields[j].key != key
    ensures r.None? ==> forall j :: 0 <= j < |fields| ==> fields[j].key != key
  {
    if |fields| == 0 then None
    else if fields[0].key == key then Some(0)
    else match FieldIndex(fields[1..], key)
      case None => None
      case Some(i) => Some(i + 1)
  }

  /** The node a path leads to, following the first field with each key. */
  function Lookup(node: Option<Node>, path: seq<string>): Option<Node>
    decreases |path|
  {
    if node.None? || path == [] then node
    else match node.value
      case Scalar(_) => None
      case Mapping(fields) =>
        match FieldIndex(fields, path[0])
        case None => None
        case Some(i) => Lookup(Some(fields[i].node), path[1..])
  }

  /** The scalar a path leads to, if it leads to one. */
  function ScalarAt(node: Option<Node>, path: seq<string>): Option<string>
  {
    match Lookup(node, path)
    case Some(Scalar(s)) => Some(s)
    case _ => None
  }

  /**
   * Walks `path` from `node` (None: nothing there yet), creating each missing
   * mapping and appending it after the existing fields, and sets the scalar at
   * the end to the spliced value. A scalar on the way or a mapping at the end
   * is an error.
   */
  function SetAt(node: Option<Node>, path: seq<string>, value: string, pos: nat): (r: Result<Node, PathError>)
    ensures node.None? ==> r.Ok?
    ensures path != [] && r.Ok? ==> r.value.Mapping?
    decreases |path|
  {
    if path == [] then
      match node
      case None => Ok(Scalar(SpliceValue(None, value, pos)))
      case Some(Scalar(s)) => Ok(Scalar(SpliceValue(Some(s), value, pos)))
      case Some(Mapping(_)) => Err(NotAScalar)
    else
      match node
      case None =>
        var child := SetAt(None, path[1..], value, pos);
        Ok(Mapping([Field(path[0], child.value)]))
      case Some(Scalar(_)) => Err(NotAMapping(path[0]))
      case Some(Mapping(fields)) =>
        match FieldIndex(fields, path[0])
        case None =>
          (match SetAt(None, path[1..], value, pos)
           case Ok(child) => Ok(Mapping(fields + [Field(path[0], child)]))
           case Err(e) => Err(e))
        case Some(i) =>
          (match SetAt(Some(fields[i].node), path[1..], value, pos)
           case Ok(child) => Ok(Mapping(fields[i := Field(path[0], child)]))
           case Err(e) => Err(e))
  }

  /** The filter applied to one document: its field path split on `/`. */
  function ApplyFilter(f: Filter, doc: Node): (r: Result<Node, PathError>)
    ensures r.Ok? ==> r.value.Mapping?
    ensures doc.Scalar? ==> r.Err?
  {
    SetAt(Some(doc), Split(f.fieldPath, PathSeparator), f.value, f.filePathPosition)
  }

  // ---------------------------------------------------------------------------
  // What setting a path guarantees.

  /** Afterwards the path leads to a scalar holding the spliced value. */
  lemma {:induction false} SetThenLookup(node: Option<Node>, path: seq<string>, value: string, pos: nat)
    requires SetAt(node, path, value, pos).Ok?
    ensures Lookup(Some(SetAt(node, path, value, pos).value), path) ==
              Some(Scalar(SpliceValue(ScalarAt(node, path), value, pos)))
    decreases |path|
  {
    if path != [] {
      var r := SetAt(node, path, value, pos).value;
      assert path == [path[0]] + path[1..];
      match node
      case None =>
        SetThenLookup(None, path[1..], value, pos);
      case Some(Mapping(fields)) =>
        match FieldIndex(fields, path[0])
        case None =>
          FieldIndexIs(r.fields, path[0], |fields|);
          SetThenLookup(None, path[1..], value, pos);
        case Some(i) =>
          var child := SetAt(Some(fields[i].node), path[1..], value, pos).value;
          FieldIndexUpdate(fields, i, Field(path[0], child), path[0]);
          SetThenLookup(Some(fields[i].node), path[1..], value, pos);
    }
  }

  /** `q` leaves `p` at some key: neither is a prefix of the other. */
  predicate Diverges(p: seq<string>, q: seq<string>)
    decreases |p|
  {
    |p| > 0 && |q| > 0 && (p[0] != q[0] || Diverges(p[1..], q[1..]))
  }

  /** Everything off the path is unchanged: a path that leaves it leads where it led before. */
  lemma {:induction false} SetLeavesOtherPaths(node: Option<Node>, path: seq<string>, value: string, pos: nat,
                                               other: seq<string>)
    requires SetAt(node, path, value, pos).Ok? && Diverges(path, other)
    ensures Lookup(Some(SetAt(node, path, value, pos).value), other) == Lookup(node, other)
    decreases |path|
  {
    var r := SetAt(node, path, value, pos).value;
    match node
    case None =>
      if path[0] == other[0] {
        SetLeavesOtherPaths(None, path[1..], value, pos, other[1..]);
        assert Lookup(None, other[1..]) == None;
      }
    case Some(Mapping(fields)) =>
      match FieldIndex(fields, path[0])
      case None =>
        var child := SetAt(None, path[1..], value, pos).value;
        if path[0] == other[0] {
          FieldIndexIs(r.fields, other[0], |fields|);
          SetLeavesOtherPaths(None, path[1..], value, pos, other[1..]);
        } else {
          FieldIndexAppend(fields, Field(path[0], child), other[0]);
        }
      case Some(i) =>
        var child := SetAt(Some(fields[i].node), path[1..], value, pos).value;
        FieldIndexUpdate(fields, i, Field(path[0], child), other[0]);
        if path[0] == other[0] {
          SetLeavesOtherPaths(Some(fields[i].node), path[1..], value, pos, other[1..]);
        }
  }

  /** The first field with `key` is at `k` when it has that key and no field before it does. */
  lemma FieldIndexIs(fields: seq<Field>, key: string, k: nat)
    requires k < |fields| && fields[k].key == key
    requires forall j :: 0 <= j < k ==> fields[j].key != key
    ensures FieldIndex(fields, key) == Some(k)
  {
  }

  /** Appending a field with another key does not move the first field with `key`. */
  lemma FieldIndexAppend(fields: seq<Field>, f: Field, key: string)
    requires f.key != key
    ensures FieldIndex(fields + [f], key) == FieldIndex(fields, key)
  {
    var all := fields + [f];
    match FieldIndex(fields, key)
    case Some(k) =>
      FieldIndexIs(all, key, k);
    case None =>
  }

  /** Replacing a field by one with the same key does not move the first field with any key. */
  lemma FieldIndexUpdate(fields: seq<Field>, i: nat, f: Field, key: string)
    requires i < |fields| && f.key == fields[i].key
    ensures FieldIndex(fields[i := f], key) == FieldIndex(fields, key)
  {
    var updated := fields[i := f];
    assert forall j :: 0 <= j < |fields| ==> updated[j].key == fields[j].key;
    match FieldIndex(fields, key)
    case Some(k) =>
      FieldIndexIs(updated, key, k);
    case None =>
  }

  /** The document keeps its keys in order; a missing first key is appended at the end. */
  lemma SetKeepsKeyOrder(fields: seq<Field>, path: seq<string>, value: string, pos: nat)
    requires path != [] && SetAt(Some(Mapping(fields)), path, value, pos).Ok?
    ensures var r := SetAt(Some(Mapping(fields)), path, value, pos).value;
            r.Mapping? && Keys(r.fields) == Keys(fields) + (if path[0] in Keys(fields) then [] else [path[0]])
  {
    var r := SetAt(Some(Mapping(fields)), path, value, pos).value;
    match FieldIndex(fields, path[0])
    case None =>
      assert path[0] !in Keys(fields);
    case Some(i) =>
      assert Keys(fields)[i] == path[0];
  }

  /** No mapping anywhere in the tree has two fields with the same key. */
  predicate KeysDistinct(n: Node)
    decreases n
  {
    match n
    case Scalar(_) => true
    case Mapping(fields) =>
      && (forall i, j :: 0 <= i < j < |fields| ==> fields[i].key != fields[j].key)
      && (forall i :: 0 <= i < |fields| ==> KeysDistinct(fields[i].node))
  }

  /**
   * At every depth, not only at the top: setting a path never gives a mapping a
   * second field with a key it already has.
   */
  lemma {:induction false} SetKeepsKeysDistinct(node: Option<Node>, path: seq<string>, value: string, pos: nat)
    requires node.Some? ==> KeysDistinct(node.value)
    requires SetAt(node, path, value, pos).Ok?
    ensures KeysDistinct(SetAt(node, path, value, pos).value)
    decreases |path|
  {
    if path != [] {
      match node
      case None =>
        SetKeepsKeysDistinct(None, path[1..], value, pos);
      case Some(Mapping(fields)) =>
        match FieldIndex(fields, path[0])
        case None =>
          SetKeepsKeysDistinct(None, path[1..], value, pos);
          var child := SetAt(None, path[1..], value, pos).value;
          var all := fields + [Field(path[0], child)];
          assert forall i :: 0 <= i < |fields| ==> all[i] == fields[i];
        case Some(i) =>
          SetKeepsKeysDistinct(Some(fields[i].node), path[1..], value, pos);
          var child := SetAt(Some(fields[i].node), path[1..], value, pos).value;
          var updated := fields[i := Field(path[0], child)];
          assert forall j :: 0 <= j < |fields| ==> updated[j].key == fields[j].key;
    }
  }

  /** Replacing a scalar by the value it already holds changes nothing. */
  lemma {:induction false} ReplaceWithSameIsNoOp(node: Node, path: seq<string>, value: string)
    requires Lookup(Some(node), path) == Some(Scalar(value))
    ensures SetAt(Some(node), path, value, 0) == Ok(node)
    decreases |path|
  {
    if path != [] {
      match node
      case Mapping(fields) =>
        var i := FieldIndex(fields, path[0]).value;
        ReplaceWithSameIsNoOp(fields[i].node, path[1..], value);
        assert fields[i := Field(path[0], fields[i].node)] == fields;
    }
  }

  // ---------------------------------------------------------------------------
  // The table cases of TestValueAddFilter.

  /** The field path of every table case, spec/resourceRef/external, built from its keys. */
  function TablePath(): (p: string)
    ensures Split(p, PathSeparator) == ["spec", "resourceRef", "external"]
  {
    var segs := ["spec", "resourceRef", "external"];
    SplitJoin(segs, PathSeparator);
    Join(segs, PathSeparator)
  }

  /** The external scalar of the shared input, projects/whatever, built from its segments. */
  function TableExisting(): (e: string)
    ensures Split(e, PathSeparator) == ["projects", "whatever"]
    ensures e != ""
  {
    var segs := ["projects", "whatever"];
    SplitJoin(segs, PathSeparator);
    Join(segs, PathSeparator)
  }

  /** The last two keys of the table path, joined. */
  lemma RefExternalLiteral()
    ensures Join(["resourceRef", "external"], PathSeparator) == "resourceRef/external"
  {
    JoinCons("resourceRef", ["external"], PathSeparator);
    assert ["resourceRef"] + ["external"] == ["resourceRef", "external"];
  }

  /** TablePath() is the literal path of the test table. */
  lemma TablePathLiteral()
    ensures TablePath() == "spec/resourceRef/external"
  {
    JoinCons("spec", ["resourceRef", "external"], PathSeparator);
    assert ["spec"] + ["resourceRef", "external"] == ["spec", "resourceRef", "external"];
    RefExternalLiteral();
    TablePathSpelled();
  }

  /** The table path, spelled out. */
  lemma TablePathSpelled()
    ensures "spec" + [PathSeparator] + "resourceRef/external" == "spec/resourceRef/external"
  {
  }

  /** TableExisting() is the literal external scalar of the test table. */
  lemma TableExistingLiteral()
    ensures TableExisting() == "projects/whatever"
  {
    JoinCons("projects", ["whatever"], PathSeparator);
    assert ["projects"] + ["whatever"] == ["projects", "whatever"];
  }

  /** One step down an existing field: the field is replaced in place by its updated child. */
  lemma SetAtExistingField(fields: seq<Field>, i: nat, rest: seq<string>, value: string, pos: nat, child: Node)
    requires i < |fields| && FieldIndex(fields, fields[i].key) == Some(i)
    requires SetAt(Some(fields[i].node), rest, value, pos) == Ok(child)
    ensures SetAt(Some(Mapping(fields)), [fields[i].key] + rest, value, pos) ==
              Ok(Mapping(fields[i := Field(fields[i].key, child)]))
  {
    assert ([fields[i].key] + rest)[1..] == rest;
  }

  /** One step down a missing field: the new field is appended after the existing ones. */
  lemma SetAtNewField(fields: seq<Field>, key: string, rest: seq<string>, value: string, pos: nat, child: Node)
    requires FieldIndex(fields, key) == None
    requires SetAt(None, rest, value, pos) == Ok(child)
    ensures SetAt(Some(Mapping(fields)), [key] + rest, value, pos) == Ok(Mapping(fields + [Field(key, child)]))
  {
    assert ([key] + rest)[1..] == rest;
  }

  /** One step below a missing node: a mapping with the single new field. */
  lemma SetAtCreate(key: string, rest: seq<string>, value: string, pos: nat, child: Node)
    requires SetAt(None, rest, value, pos) == Ok(child)
    ensures SetAt(None, [key] + rest, value, pos) == Ok(Mapping([Field(key, child)]))
  {
    assert ([key] + rest)[1..] == rest;
  }

  const Kind: Field := Field("kind", Scalar("SomeKind"))

  /** `external: <s>` */
  function External(s: string): Field
  {
    Field("external", Scalar(s))
  }

  /** `resourceRef: {external: <s>}` */
  function RefWithExternal(s: string): Field
  {
    Field("resourceRef", Mapping([External(s)]))
  }

  /** `spec: {resourceRef: {external: <s>}}` */
  function SpecWithExternal(s: string): Field
  {
    Field("spec", Mapping([RefWithExternal(s)]))
  }

  /** The shared input document: kind SomeKind, external projects/whatever. */
  function SomeResource(): Node
  {
    Mapping([Kind, SpecWithExternal(TableExisting())])
  }

  function AddValue(pos: nat): Filter
  {
    Filter("valueAdded", TablePath(), pos)
  }

  /** The filter of the table walks spec, resourceRef, external. */
  lemma AddValueWalksTablePath(pos: nat, doc: Node)
    ensures ApplyFilter(AddValue(pos), doc) ==
              SetAt(Some(doc), ["spec", "resourceRef", "external"], "valueAdded", pos)
  {
  }

  /** Along an existing spec/resourceRef/external, only the external scalar changes. */
  lemma SetExternal(x: string, pos: nat)
    ensures SetAt(Some(Mapping([Kind, SpecWithExternal(x)])), ["spec", "resourceRef", "external"], "valueAdded", pos)
         == Ok(Mapping([Kind, SpecWithExternal(SpliceValue(Some(x), "valueAdded", pos))]))
  {
    var v := "valueAdded";
    var r := SpliceValue(Some(x), v, pos);
    var e0 := [External(x)];
    var r0 := [RefWithExternal(x)];
    var d0 := [Kind, SpecWithExternal(x)];
    SetAtExistingField(e0, 0, [], v, pos, Scalar(r));
    assert e0[0 := External(r)] == [External(r)];
    SetAtExistingField(r0, 0, ["external"], v, pos, Mapping([External(r)]));
    assert r0[0 := RefWithExternal(r)] == [RefWithExternal(r)];
    assert FieldIndex(d0, "spec") == Some(1);
    SetAtExistingField(d0, 1, ["resourceRef", "external"], v, pos, Mapping([RefWithExternal(r)]));
    assert ["external"] + [] == ["external"];
    assert ["resourceRef"] + ["external"] == ["resourceRef", "external"];
    assert ["spec"] + ["resourceRef", "external"] == ["spec", "resourceRef", "external"];
    assert d0[1 := SpecWithExternal(r)] == [Kind, SpecWithExternal(r)];
  }

  /** Without a spec field, spec/resourceRef/external is created and appended after the other fields. */
  lemma SetFreshExternal(fields: seq<Field>, pos: nat)
    requires FieldIndex(fields, "spec") == None
    ensures SetAt(Some(Mapping(fields)), ["spec", "resourceRef", "external"], "valueAdded", pos)
         == Ok(Mapping(fields + [SpecWithExternal(SpliceValue(None, "valueAdded", pos))]))
  {
    var v := "valueAdded";
    var r := SpliceValue(None, v, pos);
    SetAtCreate("external", [], v, pos, Scalar(r));
    assert ["external"] + [] == ["external"];
    SetAtCreate("resourceRef", ["external"], v, pos, Mapping([External(r)]));
    assert ["resourceRef"] + ["external"] == ["resourceRef", "external"];
    SetAtNewField(fields, "spec", ["resourceRef", "external"], v, pos, Mapping([RefWithExternal(r)]));
    assert ["spec"] + ["resourceRef", "external"] == ["spec", "resourceRef", "external"];
  }

  /** simpleAdd: the missing spec and resourceRef mappings are created after kind. */
  lemma SimpleAdd()
    ensures ApplyFilter(AddValue(0), Mapping([Kind])) == Ok(Mapping([Kind, SpecWithExternal("valueAdded")]))
  {
    AddValueWalksTablePath(0, Mapping([Kind]));
    assert Kind.key != "spec";
    SetFreshExternal([Kind], 0);
    assert [Kind] + [SpecWithExternal("valueAdded")] == [Kind, SpecWithExternal("valueAdded")];
  }

  /** `valueAdded/` in front of the shared scalar. */
  lemma PrefixedLiteral()
    ensures "valueAdded" + [PathSeparator] + TableExisting() == "valueAdded/projects/whatever"
  {
    TableExistingLiteral();
  }

  /** `/valueAdded` after the shared scalar. */
  lemma PostfixedLiteral()
    ensures TableExisting() + [PathSeparator] + "valueAdded" == "projects/whatever/valueAdded"
  {
    TableExistingLiteral();
  }

  /** `/valueAdded/` between the two segments of the shared scalar. */
  lemma MiddleLiteral()
    ensures Join(["projects"], PathSeparator) + [PathSeparator] + "valueAdded" + [PathSeparator]
            + Join(["whatever"], PathSeparator) == "projects/valueAdded/whatever"
  {
  }

  /** replaceExisting: position unset replaces projects/whatever outright. */
  lemma ReplaceExisting()
    ensures ApplyFilter(AddValue(0), SomeResource()) == Ok(Mapping([Kind, SpecWithExternal("valueAdded")]))
  {
    AddValueWalksTablePath(0, SomeResource());
    SetExternal(TableExisting(), 0);
  }

  /** prefixExisting: position 1 gives valueAdded/projects/whatever. */
  lemma PrefixExisting()
    ensures ApplyFilter(AddValue(1), SomeResource()) ==
              Ok(Mapping([Kind, SpecWithExternal("valueAdded/projects/whatever")]))
  {
    SplicePrefix(TableExisting(), "valueAdded");
    PrefixedLiteral();
    AddValueWalksTablePath(1, SomeResource());
    SetExternal(TableExisting(), 1);
  }

  /** postfixExisting: position 99, past both segments, gives projects/whatever/valueAdded. */
  lemma PostfixExisting()
    ensures ApplyFilter(AddValue(99), SomeResource()) ==
              Ok(Mapping([Kind, SpecWithExternal("projects/whatever/valueAdded")]))
  {
    SplicePostfix(TableExisting(), "valueAdded", 99);
    PostfixedLiteral();
    AddValueWalksTablePath(99, SomeResource());
    SetExternal(TableExisting(), 99);
  }

  /** placeInMiddleOfExisting: position 2 gives projects/valueAdded/whatever. */
  lemma PlaceInMiddleOfExisting()
    ensures ApplyFilter(AddValue(2), SomeResource()) ==
              Ok(Mapping([Kind, SpecWithExternal("projects/valueAdded/whatever")]))
  {
    SpliceMiddle(TableExisting(), "valueAdded", 2);
    var segs := ["projects", "whatever"];
    assert segs[..1] == ["projects"] && segs[1..] == ["whatever"];
    MiddleLiteral();
    AddValueWalksTablePath(2, SomeResource());
    SetExternal(TableExisting(), 2);
  }
}
