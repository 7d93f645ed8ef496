/** Narrowing a request to the allowed columns, and the evidence a handoff gives of it. */
module Projection {
  import opened Json
  import opened Collections
  import opened Text
  import opened Columns
  import opened Policy
  import opened RestrictionCodec

  // ---- the narrowing itself ----

  /** The projection a scan may use; `None` when the restriction leaves nothing to read. */
  function EffectiveProjection(r: Restriction, requested: seq<string>): Option<seq<string>> {
    if r.allowedColumns.None? then Some(requested)
    else if r.allowedColumns.value == [] then None
    else if requested == [] then r.allowedColumns
    else
      var projection := Retained(requested, r.allowedColumns.value);
      if projection == [] then None else Some(projection)
  }

  function EffectiveStatsFields(r: Restriction, requested: seq<string>): seq<string> {
    if r.allowedColumns.None? then requested else Retained(requested, r.allowedColumns.value)
  }

  predicate Permitted(r: Restriction, requested: seq<string>, c: string) {
    c in requested && (r.allowedColumns.Some? ==> c in r.allowedColumns.value)
  }

  /** A projection never leaves the allowed columns and never is empty under a column restriction;
      applying the restriction to its own result changes nothing. */
  lemma EffectiveProjectionLaws(r: Restriction, requested: seq<string>)
    requires EffectiveProjection(r, requested).Some?
    ensures var p := EffectiveProjection(r, requested).value;
      && (r.allowedColumns.Some? ==> p != [] && forall c :: c in p ==> c in r.allowedColumns.value)
      && (requested != [] ==> InOrder(p, requested) && forall c :: c in p <==> Permitted(r, requested, c))
      && EffectiveProjection(r, p) == Some(p)
  {
    if r.allowedColumns.Some? {
      var allowed := r.allowedColumns.value;
      RetainedMembers(requested, allowed);
      RetainedOrder(requested, allowed);
      KeepAll(EffectiveProjection(r, requested).value, allowed);
    } else {
      KeepAll(requested, requested);
      RetainedOrder(requested, requested);
    }
  }

  /** Exactly when there is something to read, and what: without a column restriction the request as it is; under one,
      all allowed columns for a request that names none, and otherwise the permitted columns of the request, of which
      there must be one. */
  lemma EffectiveProjectionExactly(r: Restriction, requested: seq<string>)
    ensures var p := EffectiveProjection(r, requested);
      && (p.Some? <==>
            r.allowedColumns.Some? ==>
              && r.allowedColumns.value != []
              && (requested == [] || exists c :: c in requested && c in r.allowedColumns.value))
      && (r.allowedColumns.None? ==> p == Some(requested))
      && (p.Some? && r.allowedColumns.Some? && requested == [] ==> p == r.allowedColumns)
      && (p.Some? && r.allowedColumns.Some? && requested != [] ==>
            && InOrder(p.value, requested)
            && forall c :: c in p.value <==> c in requested && c in r.allowedColumns.value)
  {
    if r.allowedColumns.Some? {
      var kept := Retained(requested, r.allowedColumns.value);
      RetainedMembers(requested, r.allowedColumns.value);
      RetainedOrder(requested, r.allowedColumns.value);
      hide Retained, InOrder;
      assert kept != [] ==> kept[0] in kept;
    }
  }

  /** Statistics fields are narrowed in the same way, except that a request for none stays one. */
  lemma EffectiveStatsExactly(r: Restriction, requested: seq<string>)
    ensures r.allowedColumns.None? ==> EffectiveStatsFields(r, requested) == requested
    ensures r.allowedColumns.Some? ==>
      && InOrder(EffectiveStatsFields(r, requested), requested)
      && forall c :: c in EffectiveStatsFields(r, requested) <==> c in requested && c in r.allowedColumns.value
  {
    if r.allowedColumns.Some? {
      RetainedMembers(requested, r.allowedColumns.value);
      RetainedOrder(requested, r.allowedColumns.value);
    }
  }

  lemma {:induction false} KeepAll(columns: seq<string>, allowed: seq<string>)
    requires forall c :: c in columns ==> c in allowed
    ensures Retained(columns, allowed) == columns
  {
    if columns != [] {
      KeepAll(columns[..|columns| - 1], allowed);
    }
  }

  // ---- the evidence ----

  const PLANNED_REQUESTED := Other("plannedRequestedProjection")
  const PLANNED_EFFECTIVE := Other("plannedEffectiveProjection")
  const PLANNED_REQUESTED_STATS := Other("plannedRequestedStatsFields")
  const PLANNED_EFFECTIVE_STATS := Other("plannedEffectiveStatsFields")
  const FETCHED_REQUESTED_STATS := Other("fetchedRequestedStatsFields")
  const FETCHED_EFFECTIVE_STATS := Other("fetchedEffectiveStatsFields")

  function StringArray(o: Object, k: Key): Option<seq<string>> {
    var items :- RequiredArr(o, k); Strings(items)
  }

  predicate NonblankUnique(columns: seq<string>) {
    (forall c :: c in columns ==> !Blank(c)) && DuplicateFree(columns)
  }

  /** Two proper column lists, the effective one drawn from the requested one and, where narrowing
      must be proved, shorter. */
  predicate Narrows(requested: seq<string>, effective: seq<string>, strict: bool) {
    && requested != [] && effective != []
    && NonblankUnique(requested) && NonblankUnique(effective)
    && (strict ==> |effective| < |requested|)
    && (forall c :: c in effective ==> c in requested)
  }

  predicate SameMember(o: Object, k: Key, p: Object, l: Key) {
    Get(o, k) == Get(p, l)
  }

  /** The evidence narrows, and its effective columns are the restriction's allowed columns. */
  predicate NarrowingShown(scan: Object, requestedKey: Key, effectiveKey: Key, strict: bool, restriction: Object) {
    var requested, effective := StringArray(scan, requestedKey), StringArray(scan, effectiveKey);
    && requested.Some? && effective.Some?
    && Narrows(requested.value, effective.value, strict)
    && SameMember(restriction, DAllowedColumns, scan, effectiveKey)
  }

  method RequireNarrowing(scan: Object, requestedKey: Key, effectiveKey: Key, strict: bool, restriction: Object)
    returns (ok: bool)
    ensures ok <==> NarrowingShown(scan, requestedKey, effectiveKey, strict, restriction)
  {
    ok := RequireLists(StringArray(scan, requestedKey), StringArray(scan, effectiveKey), strict);
    hide StringArray, Narrows, SameMember;
    ok := ok && SameMember(restriction, DAllowedColumns, scan, effectiveKey);
  }

  method RequireLists(requested: Option<seq<string>>, effective: Option<seq<string>>, strict: bool) returns (ok: bool)
    ensures ok <==> requested.Some? && effective.Some? && Narrows(requested.value, effective.value, strict)
  {
    hide Narrows;
    if requested.None? || effective.None? {
      return false;
    }
    ok := RequireNarrower(requested.value, effective.value, strict);
  }

  method RequireNarrower(requested: seq<string>, effective: seq<string>, strict: bool) returns (ok: bool)
    ensures ok <==> Narrows(requested, effective, strict)
  {
    hide NonblankUnique;
    if requested == [] || effective == [] {
      return false;
    }
    var requestedOk := RequireNonEmptyUnique(requested);
    var effectiveOk := RequireNonEmptyUnique(effective);
    if !requestedOk || !effectiveOk {
      return false;
    }
    if strict && |requested| <= |effective| {
      return false;
    }
    ok := RequireRequested(requested, effective);
  }

  method RequireRequested(requested: seq<string>, effective: seq<string>) returns (ok: bool)
    ensures ok <==> forall c :: c in effective ==> c in requested
  {
    var lookup := set c | c in requested;
    for i := 0 to |effective|
      invariant forall j :: 0 <= j < i ==> effective[j] in requested
    {
      if effective[i] !in lookup {
        return false;
      }
    }
    return true;
  }

  method RequireNonEmptyUnique(values: seq<string>) returns (ok: bool)
    ensures ok <==> NonblankUnique(values)
  {
    hide Blank;
    for i := 0 to |values|
      invariant forall j :: 0 <= j < i ==> !Blank(values[j])
    {
      if Blank(values[i]) {
        assert values[i] in values;
        return false;
      }
    }
    var seen: set<string> := {};
    for i := 0 to |values|
      invariant seen == set v | v in values[..i]
      invariant forall j, k :: 0 <= j < k < i ==> values[j] != values[k]
    {
      if values[i] in seen {
        var j :| 0 <= j < i && values[j] == values[i];
        return false;
      }
      assert values[..i + 1] == values[..i] + [values[i]];
      seen := seen + {values[i]};
    }
    return true;
  }

  /** The two evidence checks of a governed scan: projection and statistics fields. */
  method RequireGovernedScanEvidence(scan: Object, planned: Object, fetched: Object) returns (ok: bool)
    ensures ok <==>
      && NarrowingShown(scan, PLANNED_REQUESTED, PLANNED_EFFECTIVE, true, planned)
      && NarrowingShown(scan, PLANNED_REQUESTED_STATS, PLANNED_EFFECTIVE_STATS, true, planned)
      && NarrowingShown(scan, FETCHED_REQUESTED_STATS, FETCHED_EFFECTIVE_STATS, false, fetched)
  {
    hide NarrowingShown;
    var projection := RequireNarrowing(scan, PLANNED_REQUESTED, PLANNED_EFFECTIVE, true, planned);
    var plannedStats := RequireNarrowing(scan, PLANNED_REQUESTED_STATS, PLANNED_EFFECTIVE_STATS, true, planned);
    var fetchedStats := RequireNarrowing(scan, FETCHED_REQUESTED_STATS, FETCHED_EFFECTIVE_STATS, false, fetched);
    ok := projection && plannedStats && fetchedStats;
  }

  /** Accepted narrowing evidence means that the effective columns are a proper subset of the requested ones. */
  lemma AcceptedNarrowingIsStrict(scan: Object, requestedKey: Key, effectiveKey: Key, restriction: Object)
    requires NarrowingShown(scan, requestedKey, effectiveKey, true, restriction)
    ensures ToSet(StringArray(scan, effectiveKey).value) < ToSet(StringArray(scan, requestedKey).value)
  {
    hide StringArray;
    var requested, effective := StringArray(scan, requestedKey).value, StringArray(scan, effectiveKey).value;
    DistinctSize(effective);
    DistinctSize(requested);
    assert |ToSet(effective)| < |ToSet(requested)|;
    assert ToSet(effective) != ToSet(requested) && ToSet(effective) <= ToSet(requested);
  }

  // ---- evidence of a real narrowing ----

  lemma NarrowedList(requested: seq<string>, allowed: seq<string>, strict: bool)
    ensures var effective := Retained(requested, allowed);
      effective == allowed && Narrows(requested, effective, strict)
      <==> (&& allowed != [] && NonblankUnique(allowed) && NonblankUnique(requested)
            && InOrder(allowed, requested) && (strict ==> allowed != requested))
  {
    RetainedMembers(requested, allowed);
    RetainedOrder(requested, allowed);
    InOrderMembers(allowed, requested);
    hide InOrder, Blank;
    if NonblankUnique(requested) {
      RetainedInOrder(requested, allowed);
    }
  }

  lemma StringArrayRead(o: Object, k: Key, columns: seq<string>)
    requires Get(o, k) == Some(StrArr(columns))
    ensures StringArray(o, k) == Some(columns)
  {
    StrArrStrings(columns);
    hide Strings;
  }

  lemma AllowedMember(r: Restriction, effective: seq<string>, scan: Object, k: Key)
    requires Get(scan, k) == Some(StrArr(effective))
    ensures SameMember(EncodeRestriction(r), DAllowedColumns, scan, k) <==> r.allowedColumns == Some(effective)
  {
    EncodedMembers(r);
    hide EncodeRestriction;
    if r.allowedColumns.Some? && StrArr(r.allowedColumns.value) == StrArr(effective) {
      StrArrInjective(r.allowedColumns.value, effective);
    }
    hide StrArr;
  }

  /** The evidence as lists. */
  lemma EvidenceLists(r: Restriction, requested: seq<string>, effective: seq<string>, scan: Object,
                      requestedKey: Key, effectiveKey: Key, strict: bool)
    requires Get(scan, requestedKey) == Some(StrArr(requested)) && Get(scan, effectiveKey) == Some(StrArr(effective))
    ensures NarrowingShown(scan, requestedKey, effectiveKey, strict, EncodeRestriction(r))
       <==> Narrows(requested, effective, strict) && r.allowedColumns == Some(effective)
  {
    StringArrayRead(scan, requestedKey, requested);
    StringArrayRead(scan, effectiveKey, effective);
    AllowedMember(r, effective, scan, effectiveKey);
    hide StringArray, Narrows, SameMember, EncodeRestriction, StrArr, Get;
  }

  lemma EvidenceOfNarrowing(r: Restriction, requested: seq<string>, effective: seq<string>, scan: Object,
                            requestedKey: Key, effectiveKey: Key, strict: bool)
    requires Get(scan, requestedKey) == Some(StrArr(requested)) && Get(scan, effectiveKey) == Some(StrArr(effective))
    requires r.allowedColumns.Some? && requested != [] ==>
               effective == Retained(requested, r.allowedColumns.value)
    ensures NarrowingShown(scan, requestedKey, effectiveKey, strict, EncodeRestriction(r)) <==>
              && r.allowedColumns.Some? && r.allowedColumns.value != []
              && NonblankUnique(r.allowedColumns.value) && NonblankUnique(requested)
              && InOrder(r.allowedColumns.value, requested)
              && (strict ==> r.allowedColumns.value != requested)
  {
    EvidenceLists(r, requested, effective, scan, requestedKey, effectiveKey, strict);
    assert requested == [] ==> !Narrows(requested, effective, strict);
    hide NarrowingShown, Narrows, NonblankUnique, InOrder, Retained, Get, StrArr, EncodeRestriction;
    if r.allowedColumns.Some? {
      NarrowedList(requested, r.allowedColumns.value, strict);
      NothingRetained(r.allowedColumns.value);
    }
  }

  lemma NothingRetained(allowed: seq<string>)
    ensures InOrder(allowed, []) ==> allowed == []
  {
  }

  /** Evidence of what `EffectiveProjection` computed passes exactly when the allowed columns are a
      proper list inside a proper request, in the request's order, and not all of it. */
  lemma ProjectionEvidenceExact(r: Restriction, requested: seq<string>, scan: Object)
    requires EffectiveProjection(r, requested).Some?
    requires Get(scan, PLANNED_REQUESTED) == Some(StrArr(requested))
    requires Get(scan, PLANNED_EFFECTIVE) == Some(StrArr(EffectiveProjection(r, requested).value))
    ensures NarrowingShown(scan, PLANNED_REQUESTED, PLANNED_EFFECTIVE, true, EncodeRestriction(r)) <==>
              && r.allowedColumns.Some? && r.allowedColumns.value != []
              && NonblankUnique(r.allowedColumns.value) && NonblankUnique(requested)
              && InOrder(r.allowedColumns.value, requested) && r.allowedColumns.value != requested
  {
    EvidenceOfNarrowing(r, requested, EffectiveProjection(r, requested).value, scan,
                        PLANNED_REQUESTED, PLANNED_EFFECTIVE, true);
  }

  /** The same for the statistics fields, where a fetched scan need not be narrower. */
  lemma StatsEvidenceExact(r: Restriction, requested: seq<string>, scan: Object, requestedKey: Key, effectiveKey: Key,
                           strict: bool)
    requires (requestedKey, effectiveKey, strict) == (PLANNED_REQUESTED_STATS, PLANNED_EFFECTIVE_STATS, true)
          || (requestedKey, effectiveKey, strict) == (FETCHED_REQUESTED_STATS, FETCHED_EFFECTIVE_STATS, false)
    requires Get(scan, requestedKey) == Some(StrArr(requested))
    requires Get(scan, effectiveKey) == Some(StrArr(EffectiveStatsFields(r, requested)))
    ensures NarrowingShown(scan, requestedKey, effectiveKey, strict, EncodeRestriction(r)) <==>
              && r.allowedColumns.Some? && r.allowedColumns.value != []
              && NonblankUnique(r.allowedColumns.value) && NonblankUnique(requested)
              && InOrder(r.allowedColumns.value, requested) && (strict ==> r.allowedColumns.value != requested)
  {
    hide StrArr, NonblankUnique, InOrder, Retained, EncodeRestriction, NarrowingShown;
    EvidenceOfNarrowing(r, requested, EffectiveStatsFields(r, requested), scan, requestedKey, effectiveKey, strict);
  }
}
