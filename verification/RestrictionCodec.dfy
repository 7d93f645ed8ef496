/** A read restriction as JSON, written and read back. */
module RestrictionCodec {
  import opened Json
  import opened Policy

  function EncodeRestriction(r: Restriction): Object {
    (if r.allowedColumns.Some? then map[DAllowedColumns := StrArr(r.allowedColumns.value)] else map[])
    + (if r.rowPredicate.Some? then map[DRowPredicate := r.rowPredicate.value] else map[])
    + (if r.purpose.Some? then map[Purpose := Str(r.purpose.value)] else map[])
    + (if r.maxTtl.Some? then map[DMaxTtl := Num(r.maxTtl.value)] else map[])
    + (if r.policyHashes != [] then map[PolicyHashes := StrArr(r.policyHashes)] else map[])
  }

  /** An optional field reads `null` as absent. */
  function Present(v: Option<Json>): Option<Json> {
    if v == Some(Null) then None else v
  }

  function DecodeStrings(v: Option<Json>): Option<Option<seq<string>>> {
    if v.None? then Some(None) else
    var items :- AsArr(v.value);
    var strings :- Strings(items);
    Some(Some(strings))
  }

  function DecodePurpose(v: Option<Json>): Option<Option<string>> {
    if v.None? then Some(None) else var s :- AsStr(v.value); Some(Some(s))
  }

  function DecodeTtl(v: Option<Json>): Option<Option<nat>> {
    if v.None? then Some(None) else var n :- AsU64(v.value); Some(Some(n))
  }

  function DecodeRestriction(v: Json): Option<Restriction> {
    if !v.Obj? then None else
    var columns :- DecodeStrings(Present(Get(v.members, DAllowedColumns)));
    var purpose :- DecodePurpose(Present(Get(v.members, Purpose)));
    var ttl :- DecodeTtl(Present(Get(v.members, DMaxTtl)));
    var hashes :- DecodeStrings(Get(v.members, PolicyHashes));
    Some(Restriction(columns, Present(Get(v.members, DRowPredicate)), purpose, ttl,
                     if hashes.Some? then hashes.value else []))
  }

  lemma EncodedMembers(r: Restriction)
    ensures var o := EncodeRestriction(r);
      && Get(o, DAllowedColumns) == (if r.allowedColumns.Some? then Some(StrArr(r.allowedColumns.value)) else None)
      && Get(o, DRowPredicate) == r.rowPredicate
      && Get(o, Purpose) == (if r.purpose.Some? then Some(Str(r.purpose.value)) else None)
      && Get(o, DMaxTtl) == (if r.maxTtl.Some? then Some(Num(r.maxTtl.value)) else None)
      && Get(o, PolicyHashes) == (if r.policyHashes != [] then Some(StrArr(r.policyHashes)) else None)
  {
    hide StrArr;
  }

  /** A restriction with a 64-bit TTL is read back as it was written unless its row predicate is `null`,
      which is read as no row predicate at all. */
  lemma RestrictionRoundTrip(r: Restriction)
    requires r.maxTtl.Some? ==> r.maxTtl.value < U64_LIMIT
    ensures DecodeRestriction(Obj(EncodeRestriction(r))) == Some(r) <==> r.rowPredicate != Some(Null)
  {
    EncodedMembers(r);
    StrArrStrings(r.policyHashes);
    if r.allowedColumns.Some? {
      StrArrStrings(r.allowedColumns.value);
    }
    hide EncodeRestriction, Strings;
  }

  /** The member says that the field is absent, being absent or `null`, or what its strings are. */
  predicate ListSays(found: Option<Json>, field: Option<seq<string>>) {
    if found.None? || found.value.Null? then field.None? else field.Some? && found.value == StrArr(field.value)
  }

  lemma DecodedStrings(found: Option<Json>, field: Option<seq<string>>)
    ensures DecodeStrings(Present(found)) == Some(field) <==> ListSays(found, field)
    ensures DecodeStrings(found) == Some(None) <==> found.None?
    ensures field.Some? ==> (DecodeStrings(found) == Some(field) <==> found == Some(StrArr(field.value)))
  {
    if field.Some? {
      StrArrStrings(field.value);
    }
    if found.Some? && found.value.Arr? && Strings(found.value.items).Some? {
      assert StrArr(Strings(found.value.items).value).items == found.value.items;
    }
  }

  /** What an object is read as: each field from its own member, `null` as absence, except that hashes are a list
      where they are present. */
  lemma DecodedExactly(o: Object, r: Restriction)
    ensures DecodeRestriction(Obj(o)) == Some(r) <==>
      var row, purpose, ttl := Get(o, DRowPredicate), Get(o, Purpose), Get(o, DMaxTtl);
      && ListSays(Get(o, DAllowedColumns), r.allowedColumns)
      && r.rowPredicate == (if row == Some(Null) then None else row)
      && (if purpose.None? || purpose.value.Null? then r.purpose.None?
          else r.purpose.Some? && purpose.value == Str(r.purpose.value))
      && (if ttl.None? || ttl.value.Null? then r.maxTtl.None?
          else r.maxTtl.Some? && ttl.value == Num(r.maxTtl.value) && r.maxTtl.value < U64_LIMIT)
      && (if Get(o, PolicyHashes).None? then r.policyHashes == []
          else Get(o, PolicyHashes) == Some(StrArr(r.policyHashes)))
  {
    DecodedStrings(Get(o, DAllowedColumns), r.allowedColumns);
    DecodedStrings(Get(o, PolicyHashes), Some(r.policyHashes));
    hide DecodeStrings, StrArr;
  }
}
