/** The QueryGraph import plan: the accepted ids and the planned records are the same, one for one. */
module ImportPlan {
  import opened Json
  import opened Text
  import opened Projection

  // The plan's own verification section, and the plan.
  const PLAN_TABLE_COUNT := Other("table-count")
  const PLAN_VIEW_COUNT := Other("view-count")
  const PLAN_VERIFIED_TABLES := Other("verified-tables")
  const PLAN_VERIFIED_VIEWS := Other("verified-views")
  const PLAN_TABLES := Other("tables")
  const PLAN_VIEWS := Other("views")

  /** The ids of an array with the expected length, all non-blank strings, none repeated. */
  predicate UniqueIds(values: seq<Json>, count: nat) {
    |values| == count && Strings(values).Some? && NonblankUnique(Strings(values).value)
  }

  method RequireUniqueStableIdArray(values: seq<Json>, expectedCount: nat) returns (ids: Option<seq<string>>)
    ensures ids == if UniqueIds(values, expectedCount) then Strings(values) else None
  {
    hide NonblankUnique;
    if |values| != expectedCount {
      return None;
    }
    var strings := Strings(values);
    if strings.None? {
      return None;
    }
    var ok := RequireNonEmptyUnique(strings.value);
    return if ok then strings else None;
  }

  lemma UniqueIdsExactly(values: seq<Json>, count: nat)
    ensures UniqueIds(values, count) <==>
      && |values| == count
      && (forall i :: 0 <= i < |values| ==> values[i].Str? && exists c :: c in values[i].s && !IsWhitespace(c))
      && (forall i, j :: 0 <= i < j < |values| ==> values[i] != values[j])
  {
    hide IsWhitespace;
    if Strings(values).Some? {
      var strings := Strings(values).value;
      assert forall i :: 0 <= i < |values| ==> values[i] == Str(strings[i]);
      assert forall i :: 0 <= i < |strings| ==> strings[i] in strings;
    }
  }

  function RecordId(record: Json): Option<string> {
    var id :- Member(record, DStableId); AsStr(id)
  }

  /** Every verified id is the stable id of some planned record. */
  predicate Covers(records: seq<Json>, verified: seq<Json>) {
    forall v :: v in verified ==> v.Str? && exists r :: r in records && RecordId(r) == Some(v.s)
  }

  method RequireCoversVerifiedIds(records: seq<Json>, verified: seq<Json>) returns (ok: bool)
    ensures ok <==> Covers(records, verified)
  {
    hide RecordId;
    for i := 0 to |verified|
      invariant forall j :: 0 <= j < i ==>
                  verified[j].Str? && exists r :: r in records && RecordId(r) == Some(verified[j].s)
    {
      var v := verified[i];
      assert v in verified;
      if !v.Str? {
        return false;
      }
      var found := false;
      for j := 0 to |records|
        invariant found <==> exists k :: 0 <= k < j && RecordId(records[k]) == Some(v.s)
      {
        found := found || RecordId(records[j]) == Some(v.s);
      }
      if !found {
        return false;
      }
    }
    return true;
  }

  const TABLE_FIELDS :=
    {DStableId, Other("croissant-name"), Other("cdif-title"), Other("osi-model"), Other("odrl-policy")}
  const VIEW_FIELDS := {DStableId, Name, DViewVersion, Other("dialect"), Other("osi-model")}

  predicate AllClosed(records: seq<Json>, fields: set<Key>) {
    forall r :: r in records ==> r.Obj? && r.members.Keys <= fields
  }

  predicate ListRead(count: Option<nat>, records: Option<seq<Json>>, verified: Option<seq<Json>>, fields: set<Key>) {
    && count.Some? && records.Some? && verified.Some?
    && AllClosed(records.value, fields) && |records.value| == count.value
    && Covers(records.value, verified.value)
  }

  predicate ListOk(plan: Object, listKey: Key, fields: set<Key>, verification: Object, countKey: Key, idsKey: Key) {
    ListRead(RequiredU64(verification, countKey), RequiredArr(plan, listKey), RequiredArr(verification, idsKey), fields)
  }

  method RequireRecordsClosed(records: seq<Json>, fields: set<Key>) returns (ok: bool)
    ensures ok <==> AllClosed(records, fields)
  {
    for i := 0 to |records|
      invariant forall j :: 0 <= j < i ==> records[j].Obj? && records[j].members.Keys <= fields
    {
      if !records[i].Obj? || !(records[i].members.Keys <= fields) {
        assert records[i] in records;
        return false;
      }
    }
    return true;
  }

  method RequireList(count: Option<nat>, records: Option<seq<Json>>, verified: Option<seq<Json>>, fields: set<Key>)
    returns (ok: bool)
    ensures ok <==> ListRead(count, records, verified, fields)
  {
    hide Covers, AllClosed;
    if count.None? || records.None? || verified.None? {
      return false;
    }
    var closed := RequireRecordsClosed(records.value, fields);
    if !closed || |records.value| != count.value {
      return false;
    }
    ok := RequireCoversVerifiedIds(records.value, verified.value);
  }

  method RequireArtifactLists(plan: Object, verification: Object) returns (ok: bool)
    ensures ok <==>
      && ListOk(plan, PLAN_TABLES, TABLE_FIELDS, verification, PLAN_TABLE_COUNT, PLAN_VERIFIED_TABLES)
      && ListOk(plan, PLAN_VIEWS, VIEW_FIELDS, verification, PLAN_VIEW_COUNT, PLAN_VERIFIED_VIEWS)
      && PositiveU64(plan, Other("graph-nodes")).Some? && PositiveU64(plan, Other("graph-edges")).Some?
  {
    hide ListRead, RequiredArr, RequiredU64, PositiveU64;
    var tables := RequireList(RequiredU64(verification, PLAN_TABLE_COUNT), RequiredArr(plan, PLAN_TABLES),
                              RequiredArr(verification, PLAN_VERIFIED_TABLES), TABLE_FIELDS);
    var views := RequireList(RequiredU64(verification, PLAN_VIEW_COUNT), RequiredArr(plan, PLAN_VIEWS),
                             RequiredArr(verification, PLAN_VERIFIED_VIEWS), VIEW_FIELDS);
    ok := tables && views && PositiveU64(plan, Other("graph-nodes")).Some?
          && PositiveU64(plan, Other("graph-edges")).Some?;
  }

  // ---- one for one ----

  function Ids(records: seq<Json>): (r: seq<Option<string>>)
    ensures |r| == |records| && forall i :: 0 <= i < |r| ==> r[i] == RecordId(records[i])
  {
    seq(|records|, i requires 0 <= i < |records| => RecordId(records[i]))
  }

  /** A list that contains as many different things as it is long is a permutation of them. */
  lemma {:induction false} CoveringListIsPermutation<T>(list: seq<Option<T>>, wanted: seq<T>)
    requires |list| == |wanted| && DuplicateFree(wanted)
    requires forall x :: x in wanted ==> Some(x) in list
    ensures forall x :: x in list ==> x.Some?
    ensures multiset(list) == multiset(Somes(wanted))
    decreases |wanted|
  {
    if wanted == [] {
    } else {
      var n := |wanted| - 1;
      var init, last := wanted[..n], wanted[n];
      assert last in wanted;
      var j :| 0 <= j < |list| && list[j] == Some(last);
      var rest := list[..j] + list[j + 1..];
      WithoutOne(list, j);
      forall x | x in init ensures Some(x) in rest {
        assert x in wanted && x != last;
      }
      CoveringListIsPermutation(rest, init);
      assert Somes(wanted) == Somes(init) + [Some(last)];
    }
  }

  lemma WithoutOne<T>(list: seq<T>, j: nat)
    requires j < |list|
    ensures multiset(list) == multiset(list[..j] + list[j + 1..]) + multiset{list[j]}
    ensures forall x :: x in list <==> x in list[..j] + list[j + 1..] || x == list[j]
  {
    assert list == list[..j] + [list[j]] + list[j + 1..];
  }

  function Somes<T>(s: seq<T>): (r: seq<Option<T>>)
    ensures |r| == |s| && forall i :: 0 <= i < |s| ==> r[i] == Some(s[i])
  {
    seq(|s|, i requires 0 <= i < |s| => Some(s[i]))
  }

  /** The sections of a handoff, as far as one kind of artifact is concerned: the verification section
      lists unique ids, the import section and the plan's verification section repeat its count and its
      ids, and the plan's list was accepted against them. */
  predicate SectionsAgree(querygraph: Object, importSection: Object, verification: Object, plan: Object,
                          count: Key, ids: Key, planCount: Key, planIds: Key, list: Key, fields: set<Key>)
  {
    && RequiredU64(querygraph, count).Some? && RequiredArr(querygraph, ids).Some?
    && UniqueIds(RequiredArr(querygraph, ids).value, RequiredU64(querygraph, count).value)
    && Get(importSection, count) == Get(querygraph, count) && Get(importSection, ids) == Get(querygraph, ids)
    && RequiredU64(verification, planCount) == RequiredU64(importSection, count)
    && Get(verification, planIds) == Get(importSection, ids)
    && ListOk(plan, list, fields, verification, planCount, planIds)
  }

  /** The planned records carry exactly the verified ids, each once: none extra, none repeated. */
  lemma PlanIsPermutation(querygraph: Object, importSection: Object, verification: Object, plan: Object,
                          count: Key, ids: Key, planCount: Key, planIds: Key, list: Key, fields: set<Key>)
    requires SectionsAgree(querygraph, importSection, verification, plan, count, ids, planCount, planIds, list, fields)
    ensures var verified := Strings(RequiredArr(querygraph, ids).value);
      && verified.Some?
      && exists carried ::
           Carry(RequiredArr(plan, list).value, carried) && multiset(carried) == multiset(verified.value)
  {
    hide RecordId, Strings, NonblankUnique;
    var items := RequiredArr(querygraph, ids).value;
    var verified := Strings(items).value;
    assert RequiredArr(verification, planIds) == Some(items);
    var records := RequiredArr(plan, list).value;
    forall x | x in verified ensures Some(x) in Ids(records) {
      var i :| 0 <= i < |verified| && verified[i] == x;
      assert items[i] in items && items[i] == Str(x);
      var r :| r in records && RecordId(r) == Some(x);
      var j :| 0 <= j < |records| && records[j] == r;
      assert Ids(records)[j] == Some(x);
    }
    UniqueIsDuplicateFree(verified);
    CoveringListIsPermutation(Ids(records), verified);
    var carried := Carried(records, Ids(records));
    SameCounts(carried, verified);
  }

  /** The record is an object with the given stable id. */
  predicate Names(record: Json, id: string) {
    record.Obj? && Get(record.members, DStableId) == Some(Str(id))
  }

  /** The records carry the given stable ids, in order. */
  ghost predicate Carry(records: seq<Json>, carried: seq<string>) {
    |carried| == |records| && forall i :: 0 <= i < |records| ==> Names(records[i], carried[i])
  }

  lemma Carried(records: seq<Json>, ids: seq<Option<string>>) returns (carried: seq<string>)
    requires ids == Ids(records) && forall x :: x in ids ==> x.Some?
    ensures Somes(carried) == ids && Carry(records, carried)
  {
    assert forall i :: 0 <= i < |ids| ==> ids[i] in ids;
    carried := seq(|ids|, i requires 0 <= i < |ids| && ids[i].Some? => ids[i].value);
    forall i | 0 <= i < |records| ensures Names(records[i], carried[i]) {
      assert RecordId(records[i]) == Some(carried[i]);
    }
  }

  lemma {:induction false} CountOfSome<T>(s: seq<T>, x: T)
    ensures multiset(Somes(s))[Some(x)] == multiset(s)[x]
    decreases |s|
  {
    if s != [] {
      var init, last := s[..|s| - 1], s[|s| - 1];
      assert s == init + [last] && Somes(s) == Somes(init) + [Some(last)];
      CountOfSome(init, x);
    }
  }

  lemma SameCounts<T>(a: seq<T>, b: seq<T>)
    requires multiset(Somes(a)) == multiset(Somes(b))
    ensures multiset(a) == multiset(b)
  {
    forall x ensures multiset(a)[x] == multiset(b)[x] {
      CountOfSome(a, x);
      CountOfSome(b, x);
    }
  }

  /** The records are objects with known members only, and every item is a string and the stable id of one of them. */
  ghost predicate Accepted(records: seq<Json>, items: seq<Json>, fields: set<Key>) {
    && (forall i :: 0 <= i < |records| ==> records[i].Obj? && records[i].members.Keys <= fields)
    && (forall i :: 0 <= i < |items| ==> IsNamed(records, items[i]))
  }

  predicate IsNamed(records: seq<Json>, item: Json) {
    item.Str? && exists j :: 0 <= j < |records| && Names(records[j], item.s)
  }

  lemma NamedExactly(records: seq<Json>, item: Json)
    ensures IsNamed(records, item) <==> item.Str? && exists r :: r in records && RecordId(r) == Some(item.s)
  {
    if item.Str? {
      assert forall r :: RecordId(r) == Some(item.s) <==> Names(r, item.s);
      hide Names, RecordId;
      assert forall j :: 0 <= j < |records| ==> records[j] in records;
    }
  }

  lemma ClosedExactly(records: seq<Json>, fields: set<Key>)
    ensures AllClosed(records, fields)
       <==> forall i :: 0 <= i < |records| ==> records[i].Obj? && records[i].members.Keys <= fields
  {
    if AllClosed(records, fields) {
      assert forall i :: 0 <= i < |records| ==> records[i] in records;
    }
  }

  lemma AcceptedExactly(records: seq<Json>, items: seq<Json>, fields: set<Key>)
    ensures Accepted(records, items, fields) <==> AllClosed(records, fields) && Covers(records, items)
  {
    ClosedExactly(records, fields);
    hide IsNamed, RecordId, AllClosed;
    forall v | v in items
      ensures IsNamed(records, v) <==> v.Str? && exists r :: r in records && RecordId(r) == Some(v.s)
    {
      NamedExactly(records, v);
    }
    assert forall i :: 0 <= i < |items| ==> items[i] in items;
  }

  lemma ListFound(o: Object, k: Key)
    ensures RequiredArr(o, k)
         == if Get(o, k).Some? && Get(o, k).value.Arr? then Some(Get(o, k).value.items) else None
  {
  }

  lemma CountFound(o: Object, k: Key)
    ensures forall n: nat :: RequiredU64(o, k) == Some(n) <==> Get(o, k) == Some(Num(n)) && n < U64_LIMIT
  {
  }

  /** A list of the plan is accepted exactly if it holds as many records as counted, they are objects with known members
      only, and the verified ids are strings, each the stable id of a record. */
  lemma ListExactly(plan: Object, listKey: Key, fields: set<Key>, verification: Object, countKey: Key, idsKey: Key)
    ensures ListOk(plan, listKey, fields, verification, countKey, idsKey) <==>
      var list, ids := Get(plan, listKey), Get(verification, idsKey);
      && list.Some? && list.value.Arr? && ids.Some? && ids.value.Arr?
      && Get(verification, countKey) == Some(Num(|list.value.items|)) && |list.value.items| < U64_LIMIT
      && Accepted(list.value.items, ids.value.items, fields)
  {
    hide Covers, AllClosed, Accepted;
    ListFound(plan, listKey);
    ListFound(verification, idsKey);
    CountFound(verification, countKey);
    hide Get, RequiredArr, RequiredU64;
    var list, ids := Get(plan, listKey), Get(verification, idsKey);
    if list.Some? && list.value.Arr? && ids.Some? && ids.value.Arr? {
      AcceptedExactly(list.value.items, ids.value.items, fields);
    }
  }

  lemma UniqueIsDuplicateFree(values: seq<string>)
    requires NonblankUnique(values)
    ensures DuplicateFree(values)
  {
  }
}
