/** Fresh Iceberg field ids for a create-table request.

    A schema is a JSON tree whose nodes are struct fields, list elements, map keys and map
    values.  The assigner walks it in pre-order, overwrites each node's id with the next
    counter value and remembers which old id became which new one.  The counter is a
    saturating 64-bit integer: after `k` increments from 1 it holds `Sat(k + 1)`. */
module FieldIds {
  import opened Json

  function Sat(k: nat): int {
    if k < I64_MAX then k else I64_MAX
  }

  function I64At(o: Object, k: Key): Option<int> {
    if k in o then AsI64(o[k]) else None
  }

  // ---- the nodes of a schema, in pre-order ----

  /** The ids the nodes of a type carry (`None` where a node has no 64-bit integer id). */
  function TypeIds(v: Json): seq<Option<int>>
    decreases v, 1
  {
    if !v.Obj? then [] else
    var o := v.members;
    var kind := if Type in o then AsStr(o[Type]) else None;
    if kind == Some("struct") then
      if Fields in o && o[Fields].Arr? then FieldsIds(o[Fields].items) else []
    else if kind == Some("list") then SlotIds(o, ElementId, Element)
    else if kind == Some("map") then SlotIds(o, KeyId, KeyType) + SlotIds(o, ValueId, ValueType)
    else []
  }

  /** A node held in an object: its id under one member, its type under another. */
  function SlotIds(o: Object, idKey: Key, typeKey: Key): seq<Option<int>>
    decreases Obj(o), 0
  {
    [I64At(o, idKey)] + (if typeKey in o then TypeIds(o[typeKey]) else [])
  }

  function IdsOfField(field: Json): seq<Option<int>>
    decreases field, 1
  {
    if field.Obj? then SlotIds(field.members, Id, Type) else []
  }

  function FieldsIds(fields: seq<Json>): seq<Option<int>>
    decreases fields, 0
  {
    if fields == [] then [] else IdsOfField(fields[0]) + FieldsIds(fields[1..])
  }

  function SchemaIds(schema: Json): seq<Option<int>> {
    var fields := Member(schema, Fields);
    if fields.Some? && fields.value.Arr? then FieldsIds(fields.value.items) else []
  }

  // ---- the tree with fresh ids ----

  function FreshType(v: Json, k: nat): Json
    decreases v, 1
  {
    if !v.Obj? then v else
    var o := v.members;
    var kind := if Type in o then AsStr(o[Type]) else None;
    if kind == Some("struct") then
      if Fields in o && o[Fields].Arr? then Obj(o[Fields := Arr(FreshFields(o[Fields].items, k))]) else v
    else if kind == Some("list") then Obj(o + FreshSlot(o, ElementId, Element, k))
    else if kind == Some("map") then
      Obj(o + FreshSlot(o, KeyId, KeyType, k)
            + FreshSlot(o, ValueId, ValueType, k + |SlotIds(o, KeyId, KeyType)|))
    else v
  }

  function FreshSlot(o: Object, idKey: Key, typeKey: Key, k: nat): Object
    decreases Obj(o), 0
  {
    map[idKey := Num(Sat(k))] + (if typeKey in o then map[typeKey := FreshType(o[typeKey], k + 1)] else map[])
  }

  function FreshField(field: Json, k: nat): Json
    decreases field, 1
  {
    if field.Obj? then Obj(field.members + FreshSlot(field.members, Id, Type, k)) else field
  }

  function FreshFields(fields: seq<Json>, k: nat): (r: seq<Json>)
    ensures |r| == |fields|
    decreases fields, 0
  {
    if fields == [] then []
    else [FreshField(fields[0], k)] + FreshFields(fields[1..], k + |IdsOfField(fields[0])|)
  }

  function FreshSchema(schema: Json): Json {
    var fields := Member(schema, Fields);
    if fields.Some? && fields.value.Arr?
    then Obj(schema.members[Fields := Arr(FreshFields(fields.value.items, 1))])
    else schema
  }

  /** The old-to-new map after visiting nodes with the given old ids, counting from `k`. */
  function Remember(m: map<int, int>, ids: seq<Option<int>>, k: nat): map<int, int>
    decreases |ids|
  {
    if ids == [] then m
    else Remember(if ids[0].Some? then m[ids[0].value := Sat(k)] else m, ids[1..], k + 1)
  }

  lemma {:induction false} RememberBoth(m: map<int, int>, a: seq<Option<int>>, b: seq<Option<int>>, k: nat)
    ensures Remember(m, a + b, k) == Remember(Remember(m, a, k), b, k + |a|)
    decreases |a|
  {
    if a == [] {
      assert a + b == b;
    } else {
      assert (a + b)[1..] == a[1..] + b;
      RememberBoth(if a[0].Some? then m[a[0].value := Sat(k)] else m, a[1..], b, k + 1);
    }
  }

  lemma NoNodes(m: map<int, int>, k: nat)
    ensures Remember(m, [], k) == m
  {
  }

  lemma RememberSlot(m: map<int, int>, o: Object, idKey: Key, typeKey: Key, k: nat)
    ensures var oldId := I64At(o, idKey);
      Remember(m, SlotIds(o, idKey, typeKey), k)
      == Remember(if oldId.Some? then m[oldId.value := Sat(k)] else m,
                  if typeKey in o then TypeIds(o[typeKey]) else [], k + 1)
    ensures |SlotIds(o, idKey, typeKey)| == 1 + (if typeKey in o then |TypeIds(o[typeKey])| else 0)
  {
    hide TypeIds, I64At;
    var rest := if typeKey in o then TypeIds(o[typeKey]) else [];
    assert SlotIds(o, idKey, typeKey)[1..] == rest;
  }

  lemma SameSlot(o: Object, p: Object, idKey: Key, typeKey: Key)
    requires Get(o, idKey) == Get(p, idKey) && Get(o, typeKey) == Get(p, typeKey)
    ensures I64At(o, idKey) == I64At(p, idKey) && (typeKey in o <==> typeKey in p)
    ensures typeKey in p ==> o[typeKey] == p[typeKey]
  {
    hide AsI64;
  }

  lemma SlotUpdate(current: Object, whole: Object, idKey: Key, typeKey: Key, k: nat)
    requires idKey != typeKey
    ensures current + FreshSlot(whole, idKey, typeKey, k)
         == if typeKey in whole then current[idKey := Num(Sat(k))][typeKey := FreshType(whole[typeKey], k + 1)]
            else current[idKey := Num(Sat(k))]
  {
    hide FreshType, Sat;
  }

  lemma {:induction false} FieldsIdsAppend(fields: seq<Json>, field: Json)
    ensures FieldsIds(fields + [field]) == FieldsIds(fields) + IdsOfField(field)
    decreases |fields|
  {
    hide IdsOfField;
    if fields == [] {
      assert [field][1..] == [];
      assert FieldsIds([field]) == IdsOfField(field) + [];
    } else {
      assert (fields + [field])[1..] == fields[1..] + [field];
      FieldsIdsAppend(fields[1..], field);
      assert IdsOfField(fields[0]) + (FieldsIds(fields[1..]) + IdsOfField(field))
          == FieldsIds(fields) + IdsOfField(field);
    }
  }

  lemma {:induction false} FreshFieldsAppend(fields: seq<Json>, field: Json, k: nat)
    ensures FreshFields(fields + [field], k)
         == FreshFields(fields, k) + [FreshField(field, k + |FieldsIds(fields)|)]
    decreases |fields|
  {
    hide IdsOfField, FreshField;
    if fields == [] {
      assert [field][1..] == [];
      assert FreshFields([field], k) == [FreshField(field, k)] + [];
    } else {
      var n := k + |IdsOfField(fields[0])|;
      assert (fields + [field])[1..] == fields[1..] + [field];
      FreshFieldsAppend(fields[1..], field, n);
      var last := FreshField(field, n + |FieldsIds(fields[1..])|);
      assert [FreshField(fields[0], k)] + (FreshFields(fields[1..], n) + [last])
          == FreshFields(fields, k) + [FreshField(field, n + |FieldsIds(fields[1..])|)];
    }
  }

  // ---- the assigner ----

  class Assigner {
    var next: int
    var mapping: map<int, int>
    ghost var count: nat  // the counter without saturation

    ghost predicate Valid()
      reads this
    {
      next == Sat(count)
    }

    constructor ()
      ensures Valid() && count == 1 && mapping == map[]
    {
      next, mapping, count := 1, map[], 1;
    }

    method AssignType(v: Json) returns (r: Json)
      requires Valid()
      modifies this
      ensures Valid() && count == old(count) + |TypeIds(v)|
      ensures r == FreshType(v, old(count))
      ensures mapping == Remember(old(mapping), TypeIds(v), old(count))
      decreases v, 3
    {
      NoNodes(mapping, count);
      hide Remember, SlotIds, FreshSlot, FieldsIds, FreshFields;
      r := v;
      if !v.Obj? {
        return;
      }
      var o := v.members;
      var kind := if Type in o then AsStr(o[Type]) else None;
      if kind == Some("struct") {
        if Fields in o && o[Fields].Arr? {
          var fields := AssignFields(o[Fields].items);
          r := Obj(o[Fields := Arr(fields)]);
        }
      } else if kind == Some("list") {
        o := AssignTypeId(v.members, o, ElementId, Element);
        r := Obj(o);
      } else if kind == Some("map") {
        o := AssignMapType(o);
        r := Obj(o);
      }
    }

    method AssignMapType(o: Object) returns (r: Object)
      requires Valid()
      modifies this
      ensures Valid()
      ensures count == old(count) + |SlotIds(o, KeyId, KeyType) + SlotIds(o, ValueId, ValueType)|
      ensures r == o + FreshSlot(o, KeyId, KeyType, old(count))
                     + FreshSlot(o, ValueId, ValueType, old(count) + |SlotIds(o, KeyId, KeyType)|)
      ensures mapping == Remember(old(mapping), SlotIds(o, KeyId, KeyType) + SlotIds(o, ValueId, ValueType), old(count))
      decreases Obj(o), 2
    {
      RememberBoth(mapping, SlotIds(o, KeyId, KeyType), SlotIds(o, ValueId, ValueType), count);
      KeySlotKeepsValueSlot(o, count);
      hide Remember, SlotIds, FreshSlot, Get, Sat;
      r := AssignTypeId(o, o, KeyId, KeyType);
      r := AssignTypeId(o, r, ValueId, ValueType);
    }

    /** The next id, remembered as the new one of a node that had an id before. */
    method TakeId(previous: Option<int>) returns (newId: int)
      requires Valid()
      modifies this
      ensures Valid() && count == old(count) + 1 && newId == Sat(old(count))
      ensures mapping == if previous.Some? then old(mapping)[previous.value := newId] else old(mapping)
    {
      newId := next;
      next := if next < I64_MAX then next + 1 else I64_MAX;
      count := count + 1;
      if previous.Some? {
        mapping := mapping[previous.value := newId];
      }
    }

    /** Gives the node of `current` under `idKey` its id and visits its type under `typeKey`.  Both
        members still are as they were in `whole`, the object before any of its nodes was visited. */
    method AssignTypeId(ghost whole: Object, current: Object, idKey: Key, typeKey: Key) returns (r: Object)
      requires Valid() && idKey != typeKey
      requires Get(current, idKey) == Get(whole, idKey) && Get(current, typeKey) == Get(whole, typeKey)
      modifies this
      ensures Valid() && count == old(count) + |SlotIds(whole, idKey, typeKey)|
      ensures r == current + FreshSlot(whole, idKey, typeKey, old(count))
      ensures mapping == Remember(old(mapping), SlotIds(whole, idKey, typeKey), old(count))
      decreases Obj(whole), 1
    {
      RememberSlot(mapping, whole, idKey, typeKey, count);
      SlotUpdate(current, whole, idKey, typeKey, count);
      SameSlot(current, whole, idKey, typeKey);
      hide TypeIds, FreshType, FreshSlot, AsI64, SlotIds, Remember, I64At, Valid, Sat;
      var newId := TakeId(I64At(current, idKey));
      r := AssignChild(whole, current[idKey := Num(newId)], typeKey);
    }

    method AssignChild(ghost whole: Object, current: Object, typeKey: Key) returns (r: Object)
      requires Valid() && Get(current, typeKey) == Get(whole, typeKey)
      modifies this
      ensures Valid()
      ensures count == old(count) + (if typeKey in whole then |TypeIds(whole[typeKey])| else 0)
      ensures r == if typeKey in whole then current[typeKey := FreshType(whole[typeKey], old(count))] else current
      ensures mapping
           == Remember(old(mapping), if typeKey in whole then TypeIds(whole[typeKey]) else [], old(count))
      decreases Obj(whole), 0
    {
      NoNodes(mapping, count);
      hide TypeIds, FreshType, Remember, Valid;
      r := current;
      if typeKey in r {
        var child := AssignType(r[typeKey]);
        r := r[typeKey := child];
      }
    }

    method AssignFields(fields: seq<Json>) returns (r: seq<Json>)
      requires Valid()
      modifies this
      ensures Valid() && count == old(count) + |FieldsIds(fields)|
      ensures r == FreshFields(fields, old(count))
      ensures mapping == Remember(old(mapping), FieldsIds(fields), old(count))
      decreases fields, 0
    {
      r := fields;
      NoNodes(mapping, count);
      assert fields[..0] == [] && FieldsIds([]) == [];
      hide IdsOfField, FreshField, FieldsIds, FreshFields, Remember, Valid;
      for i := 0 to |fields|
        invariant Valid() && |r| == |fields|
        invariant count == old(count) + |FieldsIds(fields[..i])|
        invariant r[..i] == FreshFields(fields[..i], old(count))
        invariant forall j :: i <= j < |fields| ==> r[j] == fields[j]
        invariant mapping == Remember(old(mapping), FieldsIds(fields[..i]), old(count))
      {
        FieldsStep(old(mapping), fields, i, old(count));
        var field := AssignField(r[i]);
        r := r[i := field];
      }
      assert fields[..|fields|] == fields && r[..|fields|] == r;
    }

    method AssignField(field: Json) returns (r: Json)
      requires Valid()
      modifies this
      ensures Valid() && count == old(count) + |IdsOfField(field)|
      ensures r == FreshField(field, old(count))
      ensures mapping == Remember(old(mapping), IdsOfField(field), old(count))
      decreases field, 2
    {
      NoNodes(mapping, count);
      hide SlotIds, FreshSlot, Remember;
      r := field;
      if field.Obj? {
        var o := AssignTypeId(field.members, field.members, Id, Type);
        r := Obj(o);
      }
    }
  }

  lemma FieldsStep(m: map<int, int>, fields: seq<Json>, i: nat, k: nat)
    requires i < |fields|
    ensures var done, more := FieldsIds(fields[..i]), IdsOfField(fields[i]);
      && FieldsIds(fields[..i + 1]) == done + more
      && FreshFields(fields[..i + 1], k) == FreshFields(fields[..i], k) + [FreshField(fields[i], k + |done|)]
      && Remember(m, done + more, k) == Remember(Remember(m, done, k), more, k + |done|)
  {
    hide IdsOfField, FreshField, FieldsIds, FreshFields, Remember;
    FieldsIdsAppend(fields[..i], fields[i]);
    FreshFieldsAppend(fields[..i], fields[i], k);
    RememberBoth(m, FieldsIds(fields[..i]), IdsOfField(fields[i]), k);
    assert fields[..i + 1] == fields[..i] + [fields[i]];
  }

  lemma SlotKeys(o: Object, idKey: Key, typeKey: Key, k: nat)
    ensures FreshSlot(o, idKey, typeKey, k).Keys <= {idKey, typeKey}
  {
    hide FreshType;
  }

  lemma KeySlotKeepsValueSlot(o: Object, k: nat)
    ensures var r := o + FreshSlot(o, KeyId, KeyType, k);
      Get(r, ValueId) == Get(o, ValueId) && Get(r, ValueType) == Get(o, ValueType)
  {
    SlotKeys(o, KeyId, KeyType, k);
    hide FreshSlot;
  }

  method AssignFreshFieldIds(schema: Json) returns (renumbered: Json, lastColumnId: int, mapping: map<int, int>)
    ensures renumbered == FreshSchema(schema)
    ensures lastColumnId == Sat(1 + |SchemaIds(schema)|) - 1
    ensures mapping == Remember(map[], SchemaIds(schema), 1)
  {
    hide FieldsIds, FreshFields;
    var assigner := new Assigner();
    renumbered := schema;
    var fields := Member(schema, Fields);
    if fields.Some? && fields.value.Arr? {
      var items := assigner.AssignFields(fields.value.items);
      renumbered := Obj(schema.members[Fields := Arr(items)]);
    }
    return renumbered, assigner.next - 1, assigner.mapping;
  }
}
