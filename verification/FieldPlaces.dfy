/** Where the nodes of a schema are, told by the shape of the document alone, and that the fresh ids number them
    in document order. */
module FieldPlaces {
  import opened Json
  import opened FieldIds
  import opened FieldIdLaws

  // ---- nodes and their order ----

  /** What a node is of the object that holds it. */
  datatype Slot = FieldSlot | ElementSlot | KeySlot | ValueSlot

  /** One step down a schema: to what a node's type is, or to a field of a struct. */
  datatype Hop = Into(slot: Slot) | Item(i: nat)

  function IdKey(s: Slot): Key {
    match s
    case FieldSlot => Id
    case ElementSlot => ElementId
    case KeySlot => KeyId
    case ValueSlot => ValueId
  }

  function TypeKey(s: Slot): Key {
    match s
    case FieldSlot => Type
    case ElementSlot => Element
    case KeySlot => KeyType
    case ValueSlot => ValueType
  }

  function Reach(v: Json, hops: seq<Hop>): Option<Json> {
    if hops == [] then Some(v)
    else match hops[0]
      case Into(s) => var child :- Member(v, TypeKey(s)); Reach(child, hops[1..])
      case Item(i) =>
        var fields :- Member(v, Fields);
        if fields.Arr? && i < |fields.items| then Reach(fields.items[i], hops[1..]) else None
  }

  /** The id that the object at the end of the hops holds for the slot. */
  function NodeId(v: Json, hops: seq<Hop>, slot: Slot): Option<int> {
    var x := Reach(v, hops);
    if x.Some? && x.value.Obj? then I64At(x.value.members, IdKey(slot)) else None
  }

  /** The hops lead from a type to an object that holds such a node: the key or the value of a map, the element of a
      list, a field of a struct, at any depth. */
  predicate TypeNode(v: Json, hops: seq<Hop>, slot: Slot)
    decreases v, 2
  {
    && v.Obj?
    && var o := v.members;
       if Get(o, Type) == Some(Str("struct")) then
         Fields in o && o[Fields].Arr? && FieldsNode(o[Fields].items, hops, slot)
       else if Get(o, Type) == Some(Str("list")) then SlotNode(o, ElementSlot, hops, slot)
       else
         && Get(o, Type) == Some(Str("map"))
         && (SlotNode(o, KeySlot, hops, slot) || SlotNode(o, ValueSlot, hops, slot))
  }

  predicate FieldsNode(items: seq<Json>, hops: seq<Hop>, slot: Slot)
    decreases items, 1
  {
    && hops != [] && hops[0].Item? && hops[0].i < |items| && items[hops[0].i].Obj?
    && SlotNode(items[hops[0].i].members, FieldSlot, hops[1..], slot)
  }

  predicate SlotNode(o: Object, s: Slot, hops: seq<Hop>, slot: Slot)
    decreases Obj(o), 0
  {
    || (hops == [] && slot == s)
    || (hops != [] && hops[0] == Into(s) && TypeKey(s) in o && TypeNode(o[TypeKey(s)], hops[1..], slot))
  }

  /** The nodes of a schema are those of its fields. */
  predicate SchemaNode(schema: Json, hops: seq<Hop>, slot: Slot) {
    && schema.Obj? && Fields in schema.members && schema.members[Fields].Arr?
    && FieldsNode(schema.members[Fields].items, hops, slot)
  }

  /** A node comes before what its type holds, and a map's key with all it holds before the value. */
  function Position(hops: seq<Hop>, slot: Slot): nat {
    if hops == [] then if slot == ValueSlot then 2 else 0
    else match hops[0]
      case Into(s) => if s == ValueSlot then 3 else 1
      case Item(i) => i
  }

  /** Document order: what differs first decides. */
  predicate Earlier(p: seq<Hop>, a: Slot, q: seq<Hop>, b: Slot) {
    if p != [] && q != [] && p[0] == q[0] then Earlier(p[1..], a, q[1..], b) else Position(p, a) < Position(q, b)
  }

  // ---- the index of a node ----

  function IdsOfSlot(o: Object, s: Slot): seq<Option<int>> {
    SlotIds(o, IdKey(s), TypeKey(s))
  }

  function TypeIndex(v: Json, hops: seq<Hop>, slot: Slot): nat
    requires TypeNode(v, hops, slot)
    decreases v, 2
  {
    var o := v.members;
    if o[Type] == Str("struct") then FieldsIndex(o[Fields].items, hops, slot)
    else if o[Type] == Str("list") then SlotIndex(o, ElementSlot, hops, slot)
    else if SlotNode(o, KeySlot, hops, slot) then SlotIndex(o, KeySlot, hops, slot)
    else |IdsOfSlot(o, KeySlot)| + SlotIndex(o, ValueSlot, hops, slot)
  }

  function FieldsIndex(items: seq<Json>, hops: seq<Hop>, slot: Slot): nat
    requires FieldsNode(items, hops, slot)
    decreases items, 1
  {
    |FieldsIds(items[..hops[0].i])| + SlotIndex(items[hops[0].i].members, FieldSlot, hops[1..], slot)
  }

  function SlotIndex(o: Object, s: Slot, hops: seq<Hop>, slot: Slot): nat
    requires SlotNode(o, s, hops, slot)
    decreases Obj(o), 0
  {
    if hops == [] then 0 else 1 + TypeIndex(o[TypeKey(s)], hops[1..], slot)
  }

  lemma {:induction false} FieldsIdsSplit(items: seq<Json>, i: nat)
    requires i < |items|
    ensures FieldsIds(items) == FieldsIds(items[..i]) + IdsOfField(items[i]) + FieldsIds(items[i + 1..])
    decreases |items|
  {
    hide IdsOfField;
    if i == 0 {
      assert items[..0] == [];
    } else {
      var rest := items[1..];
      FieldsIdsSplit(rest, i - 1);
      assert items[..i][1..] == rest[..i - 1] && rest[i..] == items[i + 1..];
      var first, middle := IdsOfField(items[0]), FieldsIds(rest[..i - 1]);
      assert first + (middle + IdsOfField(items[i]) + FieldsIds(items[i + 1..]))
          == (first + middle) + IdsOfField(items[i]) + FieldsIds(items[i + 1..]);
    }
  }

  lemma {:induction false} FreshFieldAt(items: seq<Json>, i: nat, k: nat)
    requires i < |items|
    ensures FreshFields(items, k)[i] == FreshField(items[i], k + |FieldsIds(items[..i])|)
    decreases |items|
  {
    hide IdsOfField, FreshField;
    if i == 0 {
      assert items[..0] == [];
    } else {
      FreshFieldAt(items[1..], i - 1, k + |IdsOfField(items[0])|);
      assert items[..i][1..] == items[1..][..i - 1] && items[..i][0] == items[0];
    }
  }

  // ---- the shapes of the walk ----

  function SlotAfter(o: Object, s: Slot, k: nat): Object {
    FreshSlot(o, IdKey(s), TypeKey(s), k)
  }

  ghost predicate Done(o: Object, after: Object, s: Slot, k: nat) {
    SlotDone(o, after, IdKey(s), TypeKey(s), k)
  }

  lemma StructShape(v: Json, k: nat)
    requires v.Obj? && Get(v.members, Type) == Some(Str("struct")) && Fields in v.members && v.members[Fields].Arr?
    ensures TypeIds(v) == FieldsIds(v.members[Fields].items)
    ensures FreshType(v, k) == Obj(v.members[Fields := Arr(FreshFields(v.members[Fields].items, k))])
  {
    hide FieldsIds, FreshFields;
  }

  lemma ListShape(v: Json, k: nat)
    requires v.Obj? && Get(v.members, Type) == Some(Str("list"))
    ensures TypeIds(v) == IdsOfSlot(v.members, ElementSlot)
    ensures FreshType(v, k) == Obj(v.members + SlotAfter(v.members, ElementSlot, k))
    ensures Done(v.members, v.members + SlotAfter(v.members, ElementSlot, k), ElementSlot, k)
  {
    hide SlotIds, FreshSlot, SlotDone;
    SlotMembers(v.members, ElementId, Element, k);
  }

  lemma MapShape(v: Json, k: nat)
    requires v.Obj? && Get(v.members, Type) == Some(Str("map"))
    ensures TypeIds(v) == IdsOfSlot(v.members, KeySlot) + IdsOfSlot(v.members, ValueSlot)
    ensures var j := k + |IdsOfSlot(v.members, KeySlot)|;
      var after := v.members + SlotAfter(v.members, KeySlot, k) + SlotAfter(v.members, ValueSlot, j);
      && FreshType(v, k) == Obj(after)
      && Done(v.members, after, KeySlot, k) && Done(v.members, after, ValueSlot, j)
  {
    hide SlotIds, FreshSlot, SlotDone;
    MapTypeMembers(v.members, k);
  }

  lemma FieldShape(field: Json, k: nat)
    requires field.Obj?
    ensures IdsOfField(field) == IdsOfSlot(field.members, FieldSlot)
    ensures FreshField(field, k) == Obj(field.members + SlotAfter(field.members, FieldSlot, k))
    ensures Done(field.members, field.members + SlotAfter(field.members, FieldSlot, k), FieldSlot, k)
  {
    hide SlotIds, FreshSlot, SlotDone;
    SlotMembers(field.members, Id, Type, k);
  }

  // ---- every node has the id of its index ----

  /** The node at the end of the hops is the `n`-th of those with the given ids, and gets the `n`-th id from `k` on. */
  predicate Numbered(before: Json, after: Json, ids: seq<Option<int>>, n: nat, k: nat, hops: seq<Hop>, slot: Slot) {
    && n < |ids| && NodeId(before, hops, slot) == ids[n]
    && NodeId(after, hops, slot) == Some(Sat(k + n))
  }

  /** A node inside a part of a document is counted after the nodes before that part. */
  lemma Within(before: Json, after: Json, part: Json, partAfter: Json, a: seq<Option<int>>, b: seq<Option<int>>,
               c: seq<Option<int>>, n: nat, k: nat, hops: seq<Hop>, rest: seq<Hop>, slot: Slot)
    requires Numbered(part, partAfter, b, n, k + |a|, rest, slot)
    requires NodeId(before, hops, slot) == NodeId(part, rest, slot)
    requires NodeId(after, hops, slot) == NodeId(partAfter, rest, slot)
    ensures Numbered(before, after, a + b + c, |a| + n, k, hops, slot)
  {
    hide NodeId, Sat;
  }

  lemma {:induction false} TypeNumbered(v: Json, k: nat, hops: seq<Hop>, slot: Slot)
    requires TypeNode(v, hops, slot)
    ensures Numbered(v, FreshType(v, k), TypeIds(v), TypeIndex(v, hops, slot), k, hops, slot)
    decreases v, 3
  {
    hide SlotNode, FieldsNode, IdsOfSlot, SlotAfter, FieldsIds, FreshFields, TypeIds, FreshType, SlotIndex,
      FieldsIndex, Done, Numbered;
    var o := v.members;
    if o[Type] == Str("struct") {
      StructShape(v, k);
      FieldsNumbered(v, o[Fields].items, k, hops, slot);
    } else if o[Type] == Str("list") {
      ListShape(v, k);
      SlotNumbered(o, o + SlotAfter(o, ElementSlot, k), ElementSlot, k, hops, slot);
    } else {
      MapShape(v, k);
      MapNumbered(v, k, hops, slot);
    }
  }

  lemma {:induction false} MapNumbered(v: Json, k: nat, hops: seq<Hop>, slot: Slot)
    requires TypeNode(v, hops, slot) && v.members[Type] == Str("map")
    ensures var o := v.members;
      var ids := IdsOfSlot(o, KeySlot) + IdsOfSlot(o, ValueSlot);
      var after := Obj(o + SlotAfter(o, KeySlot, k) + SlotAfter(o, ValueSlot, k + |IdsOfSlot(o, KeySlot)|));
      Numbered(v, after, ids, TypeIndex(v, hops, slot), k, hops, slot)
    decreases v, 2
  {
    hide SlotNode, IdsOfSlot, SlotAfter, SlotIndex, Done, Numbered;
    var o := v.members;
    MapShape(v, k);
    var keys, values := IdsOfSlot(o, KeySlot), IdsOfSlot(o, ValueSlot);
    var after := o + SlotAfter(o, KeySlot, k) + SlotAfter(o, ValueSlot, k + |keys|);
    var n := TypeIndex(v, hops, slot);
    if SlotNode(o, KeySlot, hops, slot) {
      SlotNumbered(o, after, KeySlot, k, hops, slot);
      Within(v, Obj(after), v, Obj(after), [], keys, values, n, k, hops, hops, slot);
      assert [] + keys + values == keys + values;
    } else {
      SlotNumbered(o, after, ValueSlot, k + |keys|, hops, slot);
      Within(v, Obj(after), v, Obj(after), keys, values, [], n - |keys|, k, hops, hops, slot);
      assert keys + values + [] == keys + values;
    }
  }

  lemma {:induction false} SlotNumbered(o: Object, after: Object, s: Slot, k: nat, hops: seq<Hop>, slot: Slot)
    requires SlotNode(o, s, hops, slot) && Done(o, after, s, k)
    ensures Numbered(Obj(o), Obj(after), IdsOfSlot(o, s), SlotIndex(o, s, hops, slot), k, hops, slot)
    decreases Obj(o), 0
  {
    hide TypeNode, TypeIds, FreshType, TypeIndex, Numbered, NodeId;
    if hops == [] {
      SlotItself(o, after, s, k);
    } else {
      var child := o[TypeKey(s)];
      TypeNumbered(child, k + 1, hops[1..], slot);
      IntoSlot(Obj(o), s, hops, slot);
      IntoSlot(Obj(after), s, hops, slot);
      var first, ids := [I64At(o, IdKey(s))], TypeIds(child);
      Within(Obj(o), Obj(after), child, FreshType(child, k + 1), first, ids, [],
             TypeIndex(child, hops[1..], slot), k, hops, hops[1..], slot);
      assert first + ids + [] == IdsOfSlot(o, s);
    }
  }

  lemma SlotItself(o: Object, after: Object, s: Slot, k: nat)
    requires Done(o, after, s, k)
    ensures Numbered(Obj(o), Obj(after), IdsOfSlot(o, s), 0, k, [], s)
  {
    hide TypeIds, FreshType, TypeKey, IdKey;
  }

  lemma IntoSlot(v: Json, s: Slot, hops: seq<Hop>, slot: Slot)
    requires v.Obj? && TypeKey(s) in v.members && hops != [] && hops[0] == Into(s)
    ensures NodeId(v, hops, slot) == NodeId(v.members[TypeKey(s)], hops[1..], slot)
  {
    hide TypeKey, IdKey;
  }

  lemma ToItem(v: Json, items: seq<Json>, hops: seq<Hop>, slot: Slot)
    requires v.Obj? && Get(v.members, Fields) == Some(Arr(items))
    requires hops != [] && hops[0].Item? && hops[0].i < |items|
    ensures NodeId(v, hops, slot) == NodeId(items[hops[0].i], hops[1..], slot)
  {
    hide TypeKey, IdKey;
  }

  lemma {:induction false} FieldsNumbered(v: Json, items: seq<Json>, k: nat, hops: seq<Hop>, slot: Slot)
    requires v.Obj? && Get(v.members, Fields) == Some(Arr(items)) && FieldsNode(items, hops, slot)
    ensures Numbered(v, Obj(v.members[Fields := Arr(FreshFields(items, k))]), FieldsIds(items),
                     FieldsIndex(items, hops, slot), k, hops, slot)
    decreases items, 1
  {
    hide SlotNode, IdsOfSlot, SlotAfter, FieldsIds, FreshFields, SlotIndex, NodeId, Done, Numbered, IdsOfField,
      FreshField;
    var i := hops[0].i;
    var o := items[i].members;
    var before := FieldsIds(items[..i]);
    FieldsIdsSplit(items, i);
    FreshFieldAt(items, i, k);
    FieldShape(items[i], k + |before|);
    SlotNumbered(o, o + SlotAfter(o, FieldSlot, k + |before|), FieldSlot, k + |before|, hops[1..], slot);
    var after := Obj(v.members[Fields := Arr(FreshFields(items, k))]);
    ToItem(v, items, hops, slot);
    ToItem(after, FreshFields(items, k), hops, slot);
    Within(v, after, items[i], FreshField(items[i], k + |before|), before, IdsOfSlot(o, FieldSlot),
           FieldsIds(items[i + 1..]), SlotIndex(o, FieldSlot, hops[1..], slot), k, hops, hops[1..], slot);
  }

  // ---- indices follow document order ----

  /** The indices of two nodes are ordered as the nodes are, and only one node has an index. */
  predicate Follow(m: nat, n: nat, p: seq<Hop>, a: Slot, q: seq<Hop>, b: Slot) {
    && (Earlier(p, a, q, b) <==> m < n)
    && (m == n ==> p == q && a == b)
  }

  lemma FollowInside(m: nat, n: nat, p: seq<Hop>, a: Slot, q: seq<Hop>, b: Slot, before: nat)
    requires p != [] && q != [] && p[0] == q[0] && Follow(m, n, p[1..], a, q[1..], b)
    ensures Follow(before + m, before + n, p, a, q, b)
  {
    assert Earlier(p, a, q, b) == Earlier(p[1..], a, q[1..], b);
    hide Earlier;
    assert p == [p[0]] + p[1..] && q == [q[0]] + q[1..];
  }

  lemma {:induction false} TypeOrdered(v: Json, p: seq<Hop>, a: Slot, q: seq<Hop>, b: Slot)
    requires TypeNode(v, p, a) && TypeNode(v, q, b)
    ensures Follow(TypeIndex(v, p, a), TypeIndex(v, q, b), p, a, q, b)
    decreases v, 3
  {
    hide SlotNode, FieldsNode, SlotIndex, FieldsIndex, IdsOfSlot, Follow;
    var o := v.members;
    if o[Type] == Str("struct") {
      FieldsOrdered(o[Fields].items, p, a, q, b);
    } else if o[Type] == Str("list") {
      SlotOrdered(o, ElementSlot, p, a, q, b);
    } else {
      MapOrdered(v, p, a, q, b);
    }
  }

  lemma {:induction false} MapOrdered(v: Json, p: seq<Hop>, a: Slot, q: seq<Hop>, b: Slot)
    requires TypeNode(v, p, a) && TypeNode(v, q, b) && v.members[Type] == Str("map")
    ensures Follow(TypeIndex(v, p, a), TypeIndex(v, q, b), p, a, q, b)
    decreases v, 2
  {
    hide SlotNode, SlotIndex, IdsOfSlot, Earlier, FieldsNode, FieldsIndex;
    var o := v.members;
    var pKey, qKey := SlotNode(o, KeySlot, p, a), SlotNode(o, KeySlot, q, b);
    if pKey && qKey {
      SlotOrdered(o, KeySlot, p, a, q, b);
    } else if pKey {
      KeyBeforeValue(o, p, a, q, b);
    } else if qKey {
      KeyBeforeValue(o, q, b, p, a);
    } else {
      SlotOrdered(o, ValueSlot, p, a, q, b);
    }
  }

  lemma KeyBeforeValue(o: Object, p: seq<Hop>, a: Slot, q: seq<Hop>, b: Slot)
    requires SlotNode(o, KeySlot, p, a) && SlotNode(o, ValueSlot, q, b)
    ensures SlotIndex(o, KeySlot, p, a) < |IdsOfSlot(o, KeySlot)|
    ensures Earlier(p, a, q, b) && !Earlier(q, b, p, a)
  {
    SlotIndexInside(o, KeySlot, p, a);
    hide TypeNode, SlotIndex, IdsOfSlot;
  }

  lemma SlotIndexInside(o: Object, s: Slot, hops: seq<Hop>, slot: Slot)
    requires SlotNode(o, s, hops, slot)
    ensures SlotIndex(o, s, hops, slot) < |IdsOfSlot(o, s)|
  {
    hide SlotNode, SlotIndex, SlotIds, FreshSlot, NodeId, SlotDone;
    SlotMembers(o, IdKey(s), TypeKey(s), 0);
    SlotNumbered(o, o + SlotAfter(o, s, 0), s, 0, hops, slot);
  }

  lemma {:induction false} SlotOrdered(o: Object, s: Slot, p: seq<Hop>, a: Slot, q: seq<Hop>, b: Slot)
    requires SlotNode(o, s, p, a) && SlotNode(o, s, q, b)
    ensures Follow(SlotIndex(o, s, p, a), SlotIndex(o, s, q, b), p, a, q, b)
    decreases Obj(o), 0
  {
    hide TypeNode, TypeIndex, TypeKey;
    if p != [] && q != [] {
      var child := o[TypeKey(s)];
      hide Follow;
      TypeOrdered(child, p[1..], a, q[1..], b);
      FollowInside(TypeIndex(child, p[1..], a), TypeIndex(child, q[1..], b), p, a, q, b, 1);
    }
  }

  lemma {:induction false} FieldsOrdered(items: seq<Json>, p: seq<Hop>, a: Slot, q: seq<Hop>, b: Slot)
    requires FieldsNode(items, p, a) && FieldsNode(items, q, b)
    ensures Follow(FieldsIndex(items, p, a), FieldsIndex(items, q, b), p, a, q, b)
    decreases items, 1
  {
    hide SlotNode, SlotIndex, IdsOfSlot, FieldsIds;
    var i, j := p[0].i, q[0].i;
    if i == j {
      var o := items[i].members;
      hide Follow;
      SlotOrdered(o, FieldSlot, p[1..], a, q[1..], b);
      FollowInside(SlotIndex(o, FieldSlot, p[1..], a), SlotIndex(o, FieldSlot, q[1..], b), p, a, q, b,
                   |FieldsIds(items[..i])|);
    } else if i < j {
      FieldBefore(items, p, a, q, b);
    } else {
      FieldBefore(items, q, b, p, a);
    }
  }

  lemma FieldBefore(items: seq<Json>, p: seq<Hop>, a: Slot, q: seq<Hop>, b: Slot)
    requires FieldsNode(items, p, a) && FieldsNode(items, q, b) && p[0].i < q[0].i
    ensures FieldsIndex(items, p, a) < FieldsIndex(items, q, b)
  {
    hide SlotNode, SlotIndex, IdsOfSlot, FieldsIds, IdsOfField;
    var i, j := p[0].i, q[0].i;
    FieldShape(items[i], 0);
    SlotIndexInside(items[i].members, FieldSlot, p[1..], a);
    FieldsIdsSplit(items[..j], i);
    assert items[..j][..i] == items[..i];
  }

  // ---- every index is a node's ----

  lemma {:induction false} TypeOnto(v: Json, n: nat) returns (hops: seq<Hop>, slot: Slot)
    requires n < |TypeIds(v)|
    ensures TypeNode(v, hops, slot) && TypeIndex(v, hops, slot) == n
    decreases v, 2
  {
    var o := v.members;
    hide SlotNode, FieldsNode, SlotIndex, FieldsIndex, IdsOfSlot, FieldsIds;
    if o[Type] == Str("struct") {
      hops, slot := FieldsOnto(o[Fields].items, n);
    } else if o[Type] == Str("list") {
      ListShape(v, 0);
      hops, slot := SlotOnto(o, ElementSlot, n);
    } else {
      MapShape(v, 0);
      var keys := |IdsOfSlot(o, KeySlot)|;
      if n < keys {
        hops, slot := SlotOnto(o, KeySlot, n);
      } else {
        hops, slot := SlotOnto(o, ValueSlot, n - keys);
        ValueIsNoKey(o, hops, slot);
      }
    }
  }

  lemma ValueIsNoKey(o: Object, hops: seq<Hop>, slot: Slot)
    requires SlotNode(o, ValueSlot, hops, slot)
    ensures !SlotNode(o, KeySlot, hops, slot)
  {
    hide TypeNode, TypeKey;
  }

  lemma {:induction false} SlotOnto(o: Object, s: Slot, n: nat) returns (hops: seq<Hop>, slot: Slot)
    requires n < |IdsOfSlot(o, s)|
    ensures SlotNode(o, s, hops, slot) && SlotIndex(o, s, hops, slot) == n
    decreases Obj(o), 0
  {
    hide TypeNode, TypeIndex, TypeIds, TypeKey, IdKey;
    if n == 0 {
      hops, slot := [], s;
    } else {
      var rest, inner := TypeOnto(o[TypeKey(s)], n - 1);
      hops, slot := [Into(s)] + rest, inner;
      assert hops[1..] == rest;
    }
  }

  lemma {:induction false} FieldsOnto(items: seq<Json>, n: nat) returns (hops: seq<Hop>, slot: Slot)
    requires n < |FieldsIds(items)|
    ensures FieldsNode(items, hops, slot) && FieldsIndex(items, hops, slot) == n
    decreases items, 1
  {
    hide SlotNode, SlotIndex, IdsOfSlot, FieldsIds, IdsOfField;
    var i := FieldOf(items, n);
    FieldWithNodes(items[i]);
    var rest, inner := SlotOnto(items[i].members, FieldSlot, n - |FieldsIds(items[..i])|);
    hops, slot := [Item(i)] + rest, inner;
    assert hops[1..] == rest;
  }

  lemma FieldWithNodes(field: Json)
    requires IdsOfField(field) != []
    ensures field.Obj? && IdsOfField(field) == IdsOfSlot(field.members, FieldSlot)
  {
    hide SlotIds;
  }

  lemma {:induction false} FieldOf(items: seq<Json>, n: nat) returns (i: nat)
    requires n < |FieldsIds(items)|
    ensures i < |items| && |FieldsIds(items[..i])| <= n < |FieldsIds(items[..i])| + |IdsOfField(items[i])|
    decreases |items|
  {
    hide IdsOfField;
    if n < |IdsOfField(items[0])| {
      i := 0;
      assert items[..0] == [];
    } else {
      var j := FieldOf(items[1..], n - |IdsOfField(items[0])|);
      i := j + 1;
      assert items[..i][1..] == items[1..][..j] && items[..i][0] == items[0];
    }
  }

  // ---- the fresh ids number the nodes in document order ----

  lemma SchemaShape(schema: Json)
    requires schema.Obj? && Fields in schema.members && schema.members[Fields].Arr?
    ensures SchemaIds(schema) == FieldsIds(schema.members[Fields].items)
    ensures FreshSchema(schema) == Obj(schema.members[Fields := Arr(FreshFields(schema.members[Fields].items, 1))])
  {
    hide FieldsIds, FreshFields;
  }

  lemma IndexedId(schema: Json, hops: seq<Hop>, slot: Slot)
    requires SchemaNode(schema, hops, slot) && |SchemaIds(schema)| < I64_MAX
    ensures var n := FieldsIndex(schema.members[Fields].items, hops, slot);
      && n < |SchemaIds(schema)| && NodeId(FreshSchema(schema), hops, slot) == Some(n + 1)
      && NodeId(schema, hops, slot) == SchemaIds(schema)[n]
  {
    hide NodeId, FieldsNode, FieldsIndex, FieldsIds, FreshFields, SchemaIds, FreshSchema;
    SchemaShape(schema);
    FieldsNumbered(schema, schema.members[Fields].items, 1, hops, slot);
  }

  /** Every node of the schema, wherever it is, gets an id from 1 to the number of nodes, and its old id stands in
      the list of old ids at just that place. */
  lemma NodesAreNumbered(schema: Json, hops: seq<Hop>, slot: Slot)
    requires SchemaNode(schema, hops, slot) && |SchemaIds(schema)| < I64_MAX
    ensures var id := NodeId(FreshSchema(schema), hops, slot);
      && id.Some? && 1 <= id.value <= |SchemaIds(schema)|
      && NodeId(schema, hops, slot) == SchemaIds(schema)[id.value - 1]
  {
    hide NodeId, FieldsNode, FieldsIndex, SchemaIds, FreshSchema;
    IndexedId(schema, hops, slot);
  }

  /** And every such number is the id of a node. */
  lemma EveryNumberIsANode(schema: Json, n: nat) returns (hops: seq<Hop>, slot: Slot)
    requires 1 <= n <= |SchemaIds(schema)| < I64_MAX
    ensures SchemaNode(schema, hops, slot) && NodeId(FreshSchema(schema), hops, slot) == Some(n)
  {
    assert schema.Obj? && Fields in schema.members && schema.members[Fields].Arr?;
    hide NodeId, FreshSchema, SchemaIds, FieldsNode, FieldsIndex, FieldsIds, FreshFields;
    SchemaShape(schema);
    hops, slot := FieldsOnto(schema.members[Fields].items, n - 1);
    IndexedId(schema, hops, slot);
  }

  /** Of two nodes the one that comes first in the document has the smaller id, and no two nodes have one id. */
  lemma DocumentOrder(schema: Json, p: seq<Hop>, a: Slot, q: seq<Hop>, b: Slot)
    requires SchemaNode(schema, p, a) && SchemaNode(schema, q, b) && |SchemaIds(schema)| < I64_MAX
    ensures NodeId(FreshSchema(schema), p, a).Some? && NodeId(FreshSchema(schema), q, b).Some?
    ensures var x, y := NodeId(FreshSchema(schema), p, a).value, NodeId(FreshSchema(schema), q, b).value;
      && (Earlier(p, a, q, b) <==> x < y)
      && (x == y ==> p == q && a == b)
  {
    hide NodeId, FreshSchema, SchemaIds, FieldsNode, FieldsIndex, Earlier;
    IndexedId(schema, p, a);
    IndexedId(schema, q, b);
    FieldsOrdered(schema.members[Fields].items, p, a, q, b);
  }
}
