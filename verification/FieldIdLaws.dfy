/** What fresh field ids guarantee. */
module FieldIdLaws {
  import opened Json
  import opened Collections
  import opened FieldIds

  /** The `n` counter values from `k` on. */
  function Consecutive(k: nat, n: nat): (r: seq<Option<int>>)
    ensures |r| == n && forall i :: 0 <= i < n ==> r[i] == Some(Sat(k + i))
  {
    seq(n, i requires 0 <= i < n => Some(Sat(k + i)))
  }

  lemma ConsecutiveSplit(k: nat, m: nat, n: nat)
    ensures Consecutive(k, m) + Consecutive(k + m, n) == Consecutive(k, m + n)
  {
  }

  // ---- the new ids are consecutive in pre-order ----

  lemma {:induction false} FreshTypeIds(v: Json, k: nat)
    ensures TypeIds(FreshType(v, k)) == Consecutive(k, |TypeIds(v)|)
    decreases v, 2
  {
    hide SlotIds, FreshSlot, FieldsIds, FreshFields, Consecutive;
    if v.Obj? {
      var o := v.members;
      var kind := if Type in o then AsStr(o[Type]) else None;
      if kind == Some("struct") {
        if Fields in o && o[Fields].Arr? {
          FreshFieldsIds(o[Fields].items, k);
        }
      } else if kind == Some("list") {
        FreshListIds(o, k);
      } else if kind == Some("map") {
        FreshMapIds(o, k);
      }
    }
  }

  lemma {:induction false} FreshListIds(o: Object, k: nat)
    ensures var after := o + FreshSlot(o, ElementId, Element, k);
      && SlotIds(after, ElementId, Element) == Consecutive(k, |SlotIds(o, ElementId, Element)|)
      && Get(after, Type) == Get(o, Type)
    decreases Obj(o), 1
  {
    SlotMembers(o, ElementId, Element, k);
    hide SlotIds, FreshSlot, Consecutive, SlotDone;
    FreshSlotIds(o, o + FreshSlot(o, ElementId, Element, k), ElementId, Element, k);
  }

  lemma {:induction false} FreshMapIds(o: Object, k: nat)
    ensures var m, n := |SlotIds(o, KeyId, KeyType)|, |SlotIds(o, ValueId, ValueType)|;
      var after := o + FreshSlot(o, KeyId, KeyType, k) + FreshSlot(o, ValueId, ValueType, k + m);
      && SlotIds(after, KeyId, KeyType) + SlotIds(after, ValueId, ValueType) == Consecutive(k, m + n)
      && Get(after, Type) == Get(o, Type)
    decreases Obj(o), 1
  {
    MapTypeMembers(o, k);
    hide SlotIds, FreshSlot, Consecutive, SlotDone;
    var m, n := |SlotIds(o, KeyId, KeyType)|, |SlotIds(o, ValueId, ValueType)|;
    var after := o + FreshSlot(o, KeyId, KeyType, k) + FreshSlot(o, ValueId, ValueType, k + m);
    FreshSlotIds(o, after, KeyId, KeyType, k);
    FreshSlotIds(o, after, ValueId, ValueType, k + m);
    ConsecutiveSplit(k, m, n);
  }

  /** `after` holds the node of `o` under `idKey` and `typeKey` as the assigner leaves it. */
  ghost predicate SlotDone(o: Object, after: Object, idKey: Key, typeKey: Key, k: nat) {
    && Get(after, idKey) == Some(Num(Sat(k)))
    && Get(after, typeKey) == (if typeKey in o then Some(FreshType(o[typeKey], k + 1)) else None)
  }

  /** The two objects agree on every other member. */
  ghost predicate SameElsewhere(o: Object, after: Object, changed: set<Key>) {
    forall x :: x !in changed ==> (x in after <==> x in o) && (x in o ==> after[x] == o[x])
  }

  lemma SlotMembers(o: Object, idKey: Key, typeKey: Key, k: nat)
    requires idKey != typeKey
    ensures var after := o + FreshSlot(o, idKey, typeKey, k);
      && SlotDone(o, after, idKey, typeKey, k)
      && SameElsewhere(o, after, {idKey, typeKey})
  {
    hide FreshType;
  }

  lemma MapTypeMembers(o: Object, k: nat)
    ensures var j := k + |SlotIds(o, KeyId, KeyType)|;
      var after := o + FreshSlot(o, KeyId, KeyType, k) + FreshSlot(o, ValueId, ValueType, j);
      && SlotDone(o, after, KeyId, KeyType, k) && SlotDone(o, after, ValueId, ValueType, j)
      && SameElsewhere(o, after, {KeyId, KeyType, ValueId, ValueType})
  {
    hide FreshType, SlotIds;
  }

  lemma {:induction false} FreshSlotIds(o: Object, after: Object, idKey: Key, typeKey: Key, k: nat)
    requires SlotDone(o, after, idKey, typeKey, k)
    ensures SlotIds(after, idKey, typeKey) == Consecutive(k, |SlotIds(o, idKey, typeKey)|)
    decreases Obj(o), 0
  {
    hide TypeIds, FreshType;
    assert I64At(after, idKey) == Some(Sat(k));
    if typeKey in o {
      FreshTypeIds(o[typeKey], k + 1);
      ConsecutiveSplit(k, 1, |TypeIds(o[typeKey])|);
    }
  }

  lemma {:induction false} FreshFieldIds(field: Json, k: nat)
    ensures IdsOfField(FreshField(field, k)) == Consecutive(k, |IdsOfField(field)|)
    decreases field, 1
  {
    hide SlotIds, FreshSlot;
    if field.Obj? {
      SlotMembers(field.members, Id, Type, k);
      FreshSlotIds(field.members, field.members + FreshSlot(field.members, Id, Type, k), Id, Type, k);
    }
  }

  lemma {:induction false} FreshFieldsIds(fields: seq<Json>, k: nat)
    ensures FieldsIds(FreshFields(fields, k)) == Consecutive(k, |FieldsIds(fields)|)
    decreases fields, 0
  {
    hide IdsOfField, FreshField;
    if fields != [] {
      var m := |IdsOfField(fields[0])|;
      FreshFieldIds(fields[0], k);
      FreshFieldsIds(fields[1..], k + m);
      assert FreshFields(fields, k)[1..] == FreshFields(fields[1..], k + m);
      ConsecutiveSplit(k, m, |FieldsIds(fields[1..])|);
    }
  }

  // ---- nothing but the ids changes ----

  /** A type with the ids of its nodes removed. */
  function EraseType(v: Json): Json
    decreases v, 1
  {
    if !v.Obj? then v else
    var o := v.members;
    var kind := if Type in o then AsStr(o[Type]) else None;
    if kind == Some("struct") then
      if Fields in o && o[Fields].Arr? then Obj(o[Fields := Arr(EraseFields(o[Fields].items))]) else v
    else if kind == Some("list") then Obj((o - {ElementId}) + EraseSlot(o, Element))
    else if kind == Some("map") then
      Obj((o - {KeyId, ValueId}) + EraseSlot(o, KeyType) + EraseSlot(o, ValueType))
    else v
  }

  function EraseSlot(o: Object, typeKey: Key): Object
    decreases Obj(o), 0
  {
    if typeKey in o then map[typeKey := EraseType(o[typeKey])] else map[]
  }

  function EraseField(field: Json): Json
    decreases field, 1
  {
    if field.Obj? then Obj((field.members - {Id}) + EraseSlot(field.members, Type)) else field
  }

  function EraseFields(fields: seq<Json>): (r: seq<Json>)
    ensures |r| == |fields|
    decreases fields, 0
  {
    if fields == [] then [] else [EraseField(fields[0])] + EraseFields(fields[1..])
  }

  function EraseSchema(schema: Json): Json {
    var fields := Member(schema, Fields);
    if fields.Some? && fields.value.Arr?
    then Obj(schema.members[Fields := Arr(EraseFields(fields.value.items))])
    else schema
  }

  lemma {:induction false} FreshTypeErased(v: Json, k: nat)
    ensures EraseType(FreshType(v, k)) == EraseType(v)
    decreases v, 2
  {
    hide FreshFields, EraseFields, SlotIds, FreshSlot, EraseSlot;
    if v.Obj? {
      var o := v.members;
      var kind := if Type in o then AsStr(o[Type]) else None;
      if kind == Some("struct") {
        if Fields in o && o[Fields].Arr? {
          FreshFieldsErased(o[Fields].items, k);
        }
      } else if kind == Some("list") {
        FreshListErased(o, k);
      } else if kind == Some("map") {
        FreshMapErased(o, k);
      }
    }
  }

  lemma {:induction false} FreshListErased(o: Object, k: nat)
    ensures var after := o + FreshSlot(o, ElementId, Element, k);
      && (after - {ElementId}) + EraseSlot(after, Element) == (o - {ElementId}) + EraseSlot(o, Element)
      && Get(after, Type) == Get(o, Type)
    decreases Obj(o), 1
  {
    SlotMembers(o, ElementId, Element, k);
    hide FreshSlot, EraseSlot;
    var after := o + FreshSlot(o, ElementId, Element, k);
    SlotErased(o, after, ElementId, Element, k);
    ErasedListSlot(o, after);
  }

  lemma EraseMap(o: Object)
    requires Type in o && o[Type] == Str("map")
    ensures EraseType(Obj(o)) == Obj((o - {KeyId, ValueId}) + EraseSlot(o, KeyType) + EraseSlot(o, ValueType))
  {
    hide EraseFields, EraseSlot;
  }

  lemma FreshMap(o: Object, k: nat)
    requires Type in o && o[Type] == Str("map")
    ensures FreshType(Obj(o), k)
         == Obj(o + FreshSlot(o, KeyId, KeyType, k)
                  + FreshSlot(o, ValueId, ValueType, k + |SlotIds(o, KeyId, KeyType)|))
  {
    hide FreshFields, FreshSlot, SlotIds;
  }

  lemma {:induction false} FreshMapErased(o: Object, k: nat)
    requires Type in o && o[Type] == Str("map")
    ensures EraseType(FreshType(Obj(o), k)) == EraseType(Obj(o))
    decreases Obj(o), 1
  {
    hide FreshType, EraseType, SlotIds, FreshSlot, EraseSlot;
    FreshMap(o, k);
    EraseMap(o);
    MapTypeMembers(o, k);
    var j := k + |SlotIds(o, KeyId, KeyType)|;
    var after := o + FreshSlot(o, KeyId, KeyType, k) + FreshSlot(o, ValueId, ValueType, j);
    SlotErased(o, after, KeyId, KeyType, k);
    SlotErased(o, after, ValueId, ValueType, j);
    ErasedMapSlots(o, after);
    EraseMap(after);
  }

  lemma ErasedListSlot(o: Object, after: Object)
    requires EraseSlot(after, Element) == EraseSlot(o, Element)
    requires Element in after <==> Element in o
    requires SameElsewhere(o, after, {ElementId, Element})
    ensures (after - {ElementId}) + EraseSlot(after, Element) == (o - {ElementId}) + EraseSlot(o, Element)
  {
    hide EraseType;
  }

  lemma ErasedMapSlots(o: Object, after: Object)
    requires EraseSlot(after, KeyType) == EraseSlot(o, KeyType)
    requires EraseSlot(after, ValueType) == EraseSlot(o, ValueType)
    requires (KeyType in after <==> KeyType in o) && (ValueType in after <==> ValueType in o)
    requires SameElsewhere(o, after, {KeyId, KeyType, ValueId, ValueType})
    ensures (after - {KeyId, ValueId}) + EraseSlot(after, KeyType) + EraseSlot(after, ValueType)
         == (o - {KeyId, ValueId}) + EraseSlot(o, KeyType) + EraseSlot(o, ValueType)
  {
    hide EraseType;
  }

  lemma ErasedFieldSlot(o: Object, after: Object)
    requires EraseSlot(after, Type) == EraseSlot(o, Type)
    requires Type in after <==> Type in o
    requires SameElsewhere(o, after, {Id, Type})
    ensures (after - {Id}) + EraseSlot(after, Type) == (o - {Id}) + EraseSlot(o, Type)
  {
    hide EraseType;
  }

  lemma {:induction false} SlotErased(o: Object, after: Object, idKey: Key, typeKey: Key, k: nat)
    requires SlotDone(o, after, idKey, typeKey, k)
    ensures EraseSlot(after, typeKey) == EraseSlot(o, typeKey) && (typeKey in after <==> typeKey in o)
    decreases Obj(o), 0
  {
    hide EraseType, FreshType;
    if typeKey in o {
      FreshTypeErased(o[typeKey], k + 1);
    }
  }

  lemma {:induction false} FreshFieldErased(field: Json, k: nat)
    ensures EraseField(FreshField(field, k)) == EraseField(field)
    decreases field, 1
  {
    hide EraseSlot, FreshSlot;
    if field.Obj? {
      var o := field.members;
      SlotMembers(o, Id, Type, k);
      var after := o + FreshSlot(o, Id, Type, k);
      SlotErased(o, after, Id, Type, k);
      ErasedFieldSlot(o, after);
    }
  }

  lemma {:induction false} FreshFieldsErased(fields: seq<Json>, k: nat)
    ensures EraseFields(FreshFields(fields, k)) == EraseFields(fields)
    decreases fields, 0
  {
    hide EraseField, FreshField, IdsOfField;
    if fields != [] {
      var m := |IdsOfField(fields[0])|;
      FreshFieldErased(fields[0], k);
      FreshFieldsErased(fields[1..], k + m);
      assert FreshFields(fields, k)[1..] == FreshFields(fields[1..], k + m);
    }
  }

  // ---- a second run changes nothing ----

  lemma {:induction false} FreshTypeIdempotent(v: Json, k: nat)
    ensures FreshType(FreshType(v, k), k) == FreshType(v, k)
    decreases v, 2
  {
    hide SlotIds, FreshSlot, FreshFields, Consecutive;
    if v.Obj? {
      var o := v.members;
      var kind := if Type in o then AsStr(o[Type]) else None;
      if kind == Some("struct") {
        if Fields in o && o[Fields].Arr? {
          FreshFieldsIdempotent(o[Fields].items, k);
        }
      } else if kind == Some("list") {
        FreshListIdempotent(o, k);
      } else if kind == Some("map") {
        FreshMapIdempotent(o, k);
      }
    }
  }

  lemma {:induction false} FreshListIdempotent(o: Object, k: nat)
    ensures var after := o + FreshSlot(o, ElementId, Element, k);
      after + FreshSlot(after, ElementId, Element, k) == after && Get(after, Type) == Get(o, Type)
    decreases Obj(o), 1
  {
    SlotMembers(o, ElementId, Element, k);
    hide FreshSlot;
    SlotIdempotent(o, o + FreshSlot(o, ElementId, Element, k), ElementId, Element, k);
  }

  lemma {:induction false} FreshMapIdempotent(o: Object, k: nat)
    ensures var j := k + |SlotIds(o, KeyId, KeyType)|;
      var after := o + FreshSlot(o, KeyId, KeyType, k) + FreshSlot(o, ValueId, ValueType, j);
      && after + FreshSlot(after, KeyId, KeyType, k)
               + FreshSlot(after, ValueId, ValueType, k + |SlotIds(after, KeyId, KeyType)|) == after
      && Get(after, Type) == Get(o, Type)
    decreases Obj(o), 1
  {
    MapTypeMembers(o, k);
    hide SlotIds, FreshSlot, Consecutive, SlotDone;
    var j := k + |SlotIds(o, KeyId, KeyType)|;
    var after := o + FreshSlot(o, KeyId, KeyType, k) + FreshSlot(o, ValueId, ValueType, j);
    FreshSlotIds(o, after, KeyId, KeyType, k);
    SlotIdempotent(o, after, KeyId, KeyType, k);
    SlotIdempotent(o, after, ValueId, ValueType, j);
  }

  lemma {:induction false} SlotIdempotent(o: Object, after: Object, idKey: Key, typeKey: Key, k: nat)
    requires SlotDone(o, after, idKey, typeKey, k)
    ensures after + FreshSlot(after, idKey, typeKey, k) == after
    decreases Obj(o), 0
  {
    hide FreshType, Sat;
    if typeKey in o {
      FreshTypeIdempotent(o[typeKey], k + 1);
    }
  }

  lemma {:induction false} FreshFieldsIdempotent(fields: seq<Json>, k: nat)
    ensures FreshFields(FreshFields(fields, k), k) == FreshFields(fields, k)
    decreases fields, 0
  {
    hide IdsOfField, FreshSlot;
    if fields != [] {
      var m := |IdsOfField(fields[0])|;
      FreshFieldIdempotent(fields[0], k);
      FreshFieldIds(fields[0], k);
      FreshFieldsIdempotent(fields[1..], k + m);
      hide FreshField;
      assert FreshFields(fields, k)[1..] == FreshFields(fields[1..], k + m);
    }
  }

  lemma {:induction false} FreshFieldIdempotent(field: Json, k: nat)
    ensures FreshField(FreshField(field, k), k) == FreshField(field, k)
    decreases field, 1
  {
    hide FreshSlot;
    if field.Obj? {
      var o := field.members;
      SlotMembers(o, Id, Type, k);
      SlotIdempotent(o, o + FreshSlot(o, Id, Type, k), Id, Type, k);
    }
  }

  // ---- the old-to-new map ----

  ghost predicate Distinct(ids: seq<Option<int>>) {
    forall i, j :: 0 <= i < j < |ids| && ids[i].Some? ==> ids[i] != ids[j]
  }

  lemma {:induction false} NotRemembered(m: map<int, int>, ids: seq<Option<int>>, k: nat, oldId: int)
    requires Some(oldId) !in ids
    ensures Lookup(Remember(m, ids, k), oldId) == Lookup(m, oldId)
    decreases |ids|
  {
    hide Sat;
    if ids != [] {
      NotRemembered(if ids[0].Some? then m[ids[0].value := Sat(k)] else m, ids[1..], k + 1, oldId);
    }
  }

  /** An old id is mapped to the new id of the last node that carried it. */
  lemma {:induction false} RememberedLast(m: map<int, int>, ids: seq<Option<int>>, k: nat, i: nat, oldId: int)
    requires i < |ids| && ids[i] == Some(oldId) && Some(oldId) !in ids[i + 1..]
    ensures Lookup(Remember(m, ids, k), oldId) == Some(Sat(k + i))
    decreases |ids|
  {
    hide Sat;
    var next := if ids[0].Some? then m[ids[0].value := Sat(k)] else m;
    if i == 0 {
      NotRemembered(next, ids[1..], k + 1, oldId);
    } else {
      assert ids[1..][i - 1] == ids[i] && ids[1..][i..] == ids[i + 1..];
      RememberedLast(next, ids[1..], k + 1, i - 1, oldId);
    }
  }

  // ---- the create-table view ----

  /** Fresh ids, for every schema: the nodes carry 1, 2, 3, … in pre-order (stopping at the largest
      64-bit integer), nothing but ids changed, and a second run changes nothing at all. */
  lemma FreshSchemaLaws(schema: Json)
    ensures var n := |SchemaIds(schema)|; SchemaIds(FreshSchema(schema)) == Consecutive(1, n)
    ensures EraseSchema(FreshSchema(schema)) == EraseSchema(schema)
    ensures FreshSchema(FreshSchema(schema)) == FreshSchema(schema)
  {
    hide FieldsIds, FreshFields, EraseFields;
    var fields := Member(schema, Fields);
    if fields.Some? && fields.value.Arr? {
      FreshFieldsIds(fields.value.items, 1);
      FreshFieldsErased(fields.value.items, 1);
      FreshFieldsIdempotent(fields.value.items, 1);
    }
  }

  /** The reported last column id is an upper bound of the ids in the schema exactly as long as the number of
      nodes stays below the largest 64-bit integer; it then is that number, and the largest id. */
  lemma LastColumnId(schema: Json)
    ensures var ids, n := SchemaIds(FreshSchema(schema)), |SchemaIds(schema)|;
      var last := Sat(1 + n) - 1;
      && (n < I64_MAX <==> forall id :: id in ids && id.Some? ==> id.value <= last)
      && (n < I64_MAX ==> last == n && (n > 0 ==> Some(last) in ids))
  {
    FreshSchemaLaws(schema);
    hide SchemaIds, FreshSchema;
    var ids, n := SchemaIds(FreshSchema(schema)), |SchemaIds(schema)|;
    if n > 0 {
      assert ids[n - 1] == Some(Sat(n));
      assert ids[n - 1] in ids;
    }
  }

  /** A second run's old-to-new map is the identity on the ids in use. */
  lemma SecondRunMapsIdentically(schema: Json, id: int)
    ensures var again := Remember(map[], SchemaIds(FreshSchema(schema)), 1);
      && (id in again <==> Some(id) in SchemaIds(FreshSchema(schema)))
      && (id in again ==> again[id] == id)
  {
    FreshSchemaLaws(schema);
    var ids := SchemaIds(FreshSchema(schema));
    if Some(id) in ids {
      var i := LastIndex(ids, Some(id));
      RememberedLast(map[], ids, 1, i, id);
    } else {
      NotRemembered(map[], ids, 1, id);
    }
  }

  lemma {:induction false} LastIndex(ids: seq<Option<int>>, x: Option<int>) returns (i: nat)
    requires x in ids
    ensures i < |ids| && ids[i] == x && x !in ids[i + 1..]
    decreases |ids|
  {
    if x in ids[1..] {
      var j := LastIndex(ids[1..], x);
      i := j + 1;
      assert ids[i + 1..] == ids[1..][j + 1..];
    } else {
      i := 0;
    }
  }
}
