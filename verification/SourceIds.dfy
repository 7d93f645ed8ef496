/** Rewriting the `source-id` references of a partition spec or sort order, and the
    initial metadata that ties them to the renumbered schema. */
module SourceIds {
  import opened Json
  import opened FieldIds
  import opened FieldIdLaws

  type Renaming = map<int, int>

  /** The id a member refers to, when it is a `source-id` reference the renaming knows. */
  predicate Renamed(k: Key, v: Json, m: Renaming) {
    k == SourceId && AsI64(v).Some? && AsI64(v).value in m
  }

  function Rewritten(v: Json, m: Renaming): Json {
    match v
    case Obj(o) => Obj(map k | k in o :: if Renamed(k, o[k], m) then Num(m[AsI64(o[k]).value]) else Rewritten(o[k], m))
    case Arr(items) => Arr(seq(|items|, i requires 0 <= i < |items| => Rewritten(items[i], m)))
    case _ => v
  }

  function RewrittenMember(k: Key, v: Json, m: Renaming): Json {
    if Renamed(k, v, m) then Num(m[AsI64(v).value]) else Rewritten(v, m)
  }

  method RewriteSourceIds(v: Json, m: Renaming) returns (r: Json)
    ensures r == Rewritten(v, m)
    decreases v, 1
  {
    match v
    case Obj(o) =>
      var members := RewriteObject(o, m);
      r := Obj(members);
    case Arr(items) =>
      var rewritten := RewriteItems(items, m);
      r := Arr(rewritten);
    case _ =>
      r := v;
  }

  lemma RewrittenObject(o: Object, r: Object, m: Renaming)
    requires r.Keys == o.Keys
    requires forall k :: k in o ==> r[k] == RewrittenMember(k, o[k], m)
    ensures Obj(r) == Rewritten(Obj(o), m)
  {
    hide Renamed;
    assert r == Rewritten(Obj(o), m).members;
  }

  /** The object after its own `source-id`, if known, has been overwritten. */
  function Overwritten(o: Object, m: Renaming): Object {
    if SourceId in o && Renamed(SourceId, o[SourceId], m) then o[SourceId := Num(m[AsI64(o[SourceId]).value])] else o
  }

  lemma OverwrittenMember(o: Object, k: Key, m: Renaming)
    requires k in o
    ensures var current := Overwritten(o, m);
      && current.Keys == o.Keys
      && RewrittenMember(k, o[k], m)
         == if current[k].Obj? || current[k].Arr? then Rewritten(o[k], m) else current[k]
  {
  }

  /** Overwrites `source-id` first, then visits every member (a plain value has nothing to visit). */
  method RewriteObject(o: Object, m: Renaming) returns (r: Object)
    ensures Obj(r) == Rewritten(Obj(o), m)
    decreases Obj(o), 0
  {
    r := Overwritten(o, m);
    var keys := r.Keys;
    hide Rewritten, Overwritten, RewrittenMember;
    while keys != {}
      invariant keys <= o.Keys == r.Keys
      invariant forall k :: k in keys ==> r[k] == Overwritten(o, m)[k]
      invariant forall k :: k in o && k !in keys ==> r[k] == RewrittenMember(k, o[k], m)
      decreases keys
    {
      var k :| k in keys;
      OverwrittenMember(o, k, m);
      if r[k].Obj? || r[k].Arr? {
        var child := RewriteSourceIds(o[k], m);
        r := r[k := child];
      }
      keys := keys - {k};
    }
    RewrittenObject(o, r, m);
  }

  method RewriteItems(items: seq<Json>, m: Renaming) returns (r: seq<Json>)
    ensures Arr(r) == Rewritten(Arr(items), m)
    decreases items, 0
  {
    hide Renamed;
    r := items;
    for i := 0 to |items|
      invariant |r| == |items|
      invariant forall j :: 0 <= j < i ==> r[j] == Rewritten(items[j], m)
      invariant forall j :: i <= j < |items| ==> r[j] == items[j]
    {
      var child := RewriteSourceIds(r[i], m);
      r := r[i := child];
    }
    assert r == Rewritten(Arr(items), m).items;
  }

  // ---- places in a document ----

  datatype Step = In(k: Key) | At(i: nat)

  function Descend(v: Json, step: Step): Option<Json> {
    match step
    case In(k) => Member(v, k)
    case At(i) => if v.Arr? && i < |v.items| then Some(v.items[i]) else None
  }

  /** The value at the end of a path. */
  function Place(v: Json, path: seq<Step>): Option<Json> {
    if path == [] then Some(v)
    else var child :- Descend(v, path[0]); Place(child, path[1..])
  }

  /** The id that a path to a `source-id` member refers to. */
  function Reference(v: Json, path: seq<Step>): Option<int> {
    var x :- Place(v, path);
    if path != [] && path[|path| - 1] == In(SourceId) then AsI64(x) else None
  }

  lemma {:induction false} RewrittenPlace(v: Json, m: Renaming, path: seq<Step>)
    ensures Place(Rewritten(v, m), path)
         == match Place(v, path)
            case None => None
            case Some(x) =>
              if Reference(v, path).Some? && Reference(v, path).value in m
              then Some(Num(m[Reference(v, path).value])) else Some(Rewritten(x, m))
    decreases |path|
  {
    if path != [] {
      var child := Descend(v, path[0]);
      if child.Some? {
        if v.Obj? && Renamed(path[0].k, v.members[path[0].k], m) {
          assert child.value.Num?;
          assert Descend(Rewritten(v, m), path[0]) == Some(Num(m[AsI64(child.value).value]));
          NothingBelowNumber(child.value, path[1..]);
          NothingBelowNumber(Num(m[AsI64(child.value).value]), path[1..]);
        } else {
          assert Descend(Rewritten(v, m), path[0]) == Some(Rewritten(child.value, m));
          RewrittenPlace(child.value, m, path[1..]);
          if path[1..] != [] {
            assert path[1..][|path[1..]| - 1] == path[|path| - 1];
          }
        }
      } else {
        assert Descend(Rewritten(v, m), path[0]) == None;
      }
    }
  }

  lemma NothingBelowNumber(v: Json, path: seq<Step>)
    requires v.Num?
    ensures Place(v, path) == if path == [] then Some(v) else None
  {
  }

  /** The rewrite changes known references and nothing else: every place still exists, containers keep
      their members and lengths, every other number, string or literal is what it was. */
  lemma RewriteChangesOnlyReferences(v: Json, m: Renaming, path: seq<Step>)
    ensures Place(v, path).Some? <==> Place(Rewritten(v, m), path).Some?
    ensures Place(v, path).Some? ==>
              var x, y := Place(v, path).value, Place(Rewritten(v, m), path).value;
              var reference := Reference(v, path);
              if reference.Some? && reference.value in m then y == Num(m[reference.value])
              else if x.Obj? then y.Obj? && y.members.Keys == x.members.Keys
              else if x.Arr? then y.Arr? && |y.items| == |x.items|
              else y == x
  {
    RewrittenPlace(v, m, path);
  }

  // ---- the initial table metadata ----

  datatype Metadata = Metadata(
    lastColumnId: int, schema: Json, currentSchemaId: int,
    partitionSpec: Json, defaultSpecId: int, sortOrder: Json, defaultSortOrderId: int)

  const NO_SPEC := Obj(map[SpecId := Num(0), Fields := Arr([])])
  const NO_ORDER := Obj(map[OrderId := Num(0), Fields := Arr([])])

  function I64Member(v: Json, k: Key, default: int): int {
    var x := Member(v, k);
    if x.Some? && AsI64(x.value).Some? then AsI64(x.value).value else default
  }

  function WithSchemaId(schema: Json): Json {
    if schema.Obj? && SchemaId !in schema.members then Obj(schema.members[SchemaId := Num(0)]) else schema
  }

  function OrDefault(v: Option<Json>, default: Json): Json {
    if v.Some? then v.value else default
  }

  /** The document is an object that holds this 64-bit number under the key. */
  predicate HoldsId(v: Option<Json>, k: Key, n: int) {
    && v.Some? && v.value.Obj? && k in v.value.members && v.value.members[k] == Num(n)
    && -0x8000_0000_0000_0000 <= n <= 0x7FFF_FFFF_FFFF_FFFF
  }

  ghost predicate IsId(id: int, v: Option<Json>, k: Key) {
    HoldsId(v, k, id) || (id == 0 && forall n :: !HoldsId(v, k, n))
  }

  lemma RewrittenGet(v: Json, m: Renaming, k: Key)
    requires k != SourceId
    ensures Member(Rewritten(v, m), k)
         == if Member(v, k).Some? then Some(Rewritten(Member(v, k).value, m)) else None
  {
  }

  lemma RewrittenNumber(v: Json, m: Renaming)
    ensures AsI64(Rewritten(v, m)) == AsI64(v)
  {
  }

  lemma OneId(v: Option<Json>, k: Key, id: Option<int>)
    requires id == if v.Some? && Member(v.value, k).Some? then AsI64(Member(v.value, k).value) else None
    ensures IsId(if id.Some? then id.value else 0, v, k)
  {
    if id.Some? {
      assert HoldsId(v, k, id.value);
    }
  }

  lemma MemberIsId(v: Option<Json>, default: Json, k: Key, m: Renaming)
    requires k != SourceId && Member(default, k) == Some(Num(0))
    ensures IsId(I64Member(Rewritten(OrDefault(v, default), m), k, 0), v, k)
  {
    hide Rewritten, IsId;
    var doc := OrDefault(v, default);
    RewrittenGet(doc, m, k);
    if Member(doc, k).Some? {
      RewrittenNumber(Member(doc, k).value, m);
    }
    OneId(v, k, if v.Some? && Member(v.value, k).Some? then AsI64(Member(v.value, k).value) else None);
  }

  lemma SchemaMemberIsId(schema: Json)
    ensures IsId(I64Member(WithSchemaId(schema), SchemaId, 0), Some(schema), SchemaId)
  {
    hide IsId;
    var id := Member(schema, SchemaId);
    OneId(Some(schema), SchemaId, if id.Some? then AsI64(id.value) else None);
  }

  lemma DefaultIsKept(k: Key, m: Renaming)
    requires k != SourceId && k != Fields
    ensures Rewritten(Obj(map[k := Num(0), Fields := Arr([])]), m) == Obj(map[k := Num(0), Fields := Arr([])])
  {
    var o: Object := map[k := Num(0), Fields := Arr([])];
    EmptyIsKept(m);
    hide Rewritten;
    RewrittenObject(o, o, m);
  }

  lemma EmptyIsKept(m: Renaming)
    ensures Rewritten(Arr([]), m) == Arr([]) && Rewritten(Num(0), m) == Num(0)
  {
    assert Rewritten(Arr([]), m).items == [];
  }

  /** The schema as it is stored: with a schema id, and else only its fields renumbered. */
  ghost predicate Stored(schema: Json, after: Json) {
    schema.Obj? ==>
      && after.Obj?
      && Get(after.members, SchemaId) == Some(if SchemaId in schema.members then schema.members[SchemaId] else Num(0))
      && forall k :: k != SchemaId && k != Fields ==> Get(after.members, k) == Get(schema.members, k)
  }

  lemma SchemaIsStored(schema: Json)
    ensures Stored(schema, FreshSchema(WithSchemaId(schema)))
  {
    hide FreshFields;
  }

  method InitialTableMetadata(schema: Json, partitionSpec: Option<Json>, sortOrder: Option<Json>)
    returns (metadata: Metadata)
    ensures metadata.schema == FreshSchema(WithSchemaId(schema))
    ensures Stored(schema, metadata.schema)
    ensures IsId(metadata.currentSchemaId, Some(schema), SchemaId)
    ensures metadata.lastColumnId == Sat(1 + |SchemaIds(schema)|) - 1
    ensures var m := Remember(map[], SchemaIds(schema), 1);
      && metadata.partitionSpec == Rewritten(OrDefault(partitionSpec, NO_SPEC), m)
      && metadata.sortOrder == Rewritten(OrDefault(sortOrder, NO_ORDER), m)
    ensures partitionSpec.None? ==> metadata.partitionSpec == Obj(map[SpecId := Num(0), Fields := Arr([])])
    ensures sortOrder.None? ==> metadata.sortOrder == Obj(map[OrderId := Num(0), Fields := Arr([])])
    ensures IsId(metadata.defaultSpecId, partitionSpec, SpecId) && IsId(metadata.defaultSortOrderId, sortOrder, OrderId)
  {
    hide FreshSchema, Rewritten, Sat, Remember, I64Member, IsId, Stored, SchemaIds, OrDefault, WithSchemaId;
    SchemaMemberIsId(schema);
    SchemaIsStored(schema);
    SameNodes(schema);
    ghost var renaming := Remember(map[], SchemaIds(schema), 1);
    MemberIsId(partitionSpec, NO_SPEC, SpecId, renaming);
    MemberIsId(sortOrder, NO_ORDER, OrderId, renaming);
    AbsentIsDefault(renaming);
    var withId := AddSchemaId(schema);
    var currentSchemaId := I64Member(withId, SchemaId, 0);
    var renumbered, lastColumnId, m := AssignFreshFieldIds(withId);
    var spec := RewriteSourceIds(OrDefault(partitionSpec, NO_SPEC), m);
    var order := RewriteSourceIds(OrDefault(sortOrder, NO_ORDER), m);
    metadata := Metadata(lastColumnId, renumbered, currentSchemaId, spec, I64Member(spec, SpecId, 0),
                         order, I64Member(order, OrderId, 0));
  }

  method AddSchemaId(schema: Json) returns (withId: Json)
    ensures withId == WithSchemaId(schema)
  {
    withId := schema;
    if Member(schema, SchemaId).None? && schema.Obj? {
      withId := Obj(schema.members[SchemaId := Num(0)]);
    }
  }

  lemma SameNodes(schema: Json)
    ensures SchemaIds(WithSchemaId(schema)) == SchemaIds(schema)
  {
    hide FieldsIds;
  }

  lemma AbsentIsDefault(m: Renaming)
    ensures Rewritten(OrDefault(None, NO_SPEC), m) == Obj(map[SpecId := Num(0), Fields := Arr([])])
    ensures Rewritten(OrDefault(None, NO_ORDER), m) == Obj(map[OrderId := Num(0), Fields := Arr([])])
  {
    hide Rewritten;
    DefaultIsKept(SpecId, m);
    DefaultIsKept(OrderId, m);
  }

  /** Renaming preserves meaning.  Let a reference of the document name the schema's `i`-th node, the
      last one in pre-order that carries its id.  After renumbering and rewriting, the reference at the
      same place carries the id of that same node, and (below the counter's limit) of no other. */
  lemma RenamingPreservesReferences(schema: Json, doc: Json, path: seq<Step>, i: nat)
    requires i < |SchemaIds(schema)|
    requires Reference(doc, path).Some? && SchemaIds(schema)[i] == Reference(doc, path)
    requires Reference(doc, path) !in SchemaIds(schema)[i + 1..]
    ensures var ids := SchemaIds(FreshSchema(schema));
      var reference := Reference(Rewritten(doc, Remember(map[], SchemaIds(schema), 1)), path);
      && |ids| == |SchemaIds(schema)| && reference.Some? && reference == ids[i]
      && (|ids| < I64_MAX ==> forall j :: 0 <= j < |ids| && ids[j] == reference ==> j == i)
  {
    hide SchemaIds, FreshSchema, Rewritten, Remember, Place;
    var id := Reference(doc, path).value;
    var m := Remember(map[], SchemaIds(schema), 1);
    RememberedLast(map[], SchemaIds(schema), 1, i, id);
    RewrittenPlace(doc, m, path);
    FreshSchemaLaws(schema);
  }

  /** With distinct old ids every node is the last that carries its id. */
  lemma DistinctIdsAreLast(ids: seq<Option<int>>, i: nat)
    requires Distinct(ids) && i < |ids| && ids[i].Some?
    ensures ids[i] !in ids[i + 1..]
  {
  }

  /** So, with distinct old ids, every reference of a document to a node of the schema keeps naming that node. */
  lemma DistinctReferencesPreserved(schema: Json, doc: Json, path: seq<Step>, i: nat)
    requires Distinct(SchemaIds(schema)) && |SchemaIds(schema)| < I64_MAX
    requires i < |SchemaIds(schema)|
    requires Reference(doc, path).Some? && SchemaIds(schema)[i] == Reference(doc, path)
    ensures var ids := SchemaIds(FreshSchema(schema));
      var reference := Reference(Rewritten(doc, Remember(map[], SchemaIds(schema), 1)), path);
      && reference.Some? && forall j :: 0 <= j < |ids| ==> (ids[j] == reference <==> j == i)
  {
    hide SchemaIds, FreshSchema, Reference, Rewritten, Remember;
    DistinctIdsAreLast(SchemaIds(schema), i);
    RenamingPreservesReferences(schema, doc, path, i);
  }

  /** A reference that names no node is left alone.  It names a node afterwards exactly when it
      happens to lie among the new ids. */
  lemma UnmappedReferenceKept(schema: Json, doc: Json, path: seq<Step>)
    requires Reference(doc, path).Some? && Reference(doc, path) !in SchemaIds(schema)
    requires |SchemaIds(schema)| < I64_MAX
    ensures var reference := Reference(Rewritten(doc, Remember(map[], SchemaIds(schema), 1)), path);
      && reference == Reference(doc, path)
      && (reference in SchemaIds(FreshSchema(schema)) <==> 1 <= reference.value <= |SchemaIds(schema)|)
  {
    hide SchemaIds, FreshSchema, Rewritten, Remember;
    var id := Reference(doc, path).value;
    NotRemembered(map[], SchemaIds(schema), 1, id);
    RewrittenPlace(doc, Remember(map[], SchemaIds(schema), 1), path);
    assert Rewritten(Place(doc, path).value, Remember(map[], SchemaIds(schema), 1)) == Place(doc, path).value by {
      RewriteChangesOnlyReferences(doc, Remember(map[], SchemaIds(schema), 1), path);
    }
    FreshSchemaLaws(schema);
    var ids := SchemaIds(FreshSchema(schema));
    if 1 <= id <= |ids| {
      assert ids[id - 1] == Some(id);
    }
  }
}
