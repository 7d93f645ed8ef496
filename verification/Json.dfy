/** JSON values as `serde_json::Value` presents them, and the small field readers
    that every evidence check is made of.

    Object members are a map: `serde_json` compares objects without regard to
    member order.  `Key` lists the member names the modelled code reads or writes;
    `Other` stands for any further name. */
module Json {

  datatype Option<+T> = None | Some(value: T) {
    predicate IsFailure() {
      None?
    }

    function PropagateFailure<U>(): Option<U>
      requires None?
    {
      None
    }

    function Extract(): T
      requires Some?
    {
      value
    }
  }

  datatype Key =
    // compact view-receipt evidence
    | StableId | Warehouse | Namespace | Name | ViewVersion
    | PreviousViewVersion | PreviousReceiptHash | Operation | ViewHash | ReceiptHash
    | PrincipalSubject | PrincipalKind | RecordedAt
    | ChainHash | ChainVerified | LatestViewVersion | LatestOperation | Tombstoned
    | ReceiptCount | Receipts
    | VerifiedChainCount | ReceiptHashes | ChainHashes | Chains
    | ReplayEventHashes | OpenLineageHashes
    | AcceptedViewVersion | AcceptedReceiptHash | AcceptedReceiptChainHash
    | EventType | ExpectedViewVersion | GraphEvents
    | ViewCount | Views | TombstoneReceipts | ReceiptChains
    // digest preimages, which use dashed member names
    | DStableId | DViewVersion | DPreviousViewVersion | DPreviousReceiptHash
    | DViewHash | DPrincipal | DSubject | DKind | DRecordedAt
    | DLatestViewVersion | DLatestOperation | DReceiptHashes
    // Iceberg schemas, partition specs and sort orders
    | Id | Type | Fields | ElementId | Element | KeyId | KeyType | ValueId | ValueType
    | SourceId | SchemaId | SpecId | OrderId
    // ODRL policy documents
    | AllowedColumns | DAllowedColumns | Columns
    | LakecatReadRestriction | DReadRestriction | ReadRestriction
    | RowPredicate | DRowPredicate | LakecatRowPredicate
    | Purpose | MaxTtl | DMaxTtl
    | Permission | Constraint
    | Operator | OdrlOperator | LeftOperand | DLeftOperand | OdrlLeftOperand
    | RightOperand | DRightOperand | OdrlRightOperand
    | AtId | AtValue | AtList | Left | Right
    // authorization contexts, read restrictions and table metadata
    | RequestIdentityKey | PolicyBindingsKey | AttestationState | TypedidAttestation | Typedid | Source
    | OriginalContextDigest | GrantId | RawCredentialException | Requested | Allowed | Reason
    | PolicyHashes | CurrentSnapshotId | LakecatVersion | LastRequestHash
    | Other(name: string)

  type Object = map<Key, Json>

  datatype Json =
    | Null
    | Bool(b: bool)
    | Num(n: int)
    | Float(r: real)
    | Str(s: string)
    | Arr(items: seq<Json>)
    | Obj(members: Object)

  const U64_LIMIT: nat := 0x1_0000_0000_0000_0000
  const U64_MAX: nat := U64_LIMIT - 1
  const I64_MAX: int := 0x7FFF_FFFF_FFFF_FFFF
  const I64_MIN: int := -0x8000_0000_0000_0000

  function Get(o: Object, k: Key): Option<Json> {
    if k in o then Some(o[k]) else None
  }

  /** `Value::get`: absent on anything that is not an object. */
  function Member(v: Json, k: Key): Option<Json> {
    if v.Obj? then Get(v.members, k) else None
  }

  function AsU64(v: Json): Option<nat> {
    if v.Num? && 0 <= v.n < U64_LIMIT then Some(v.n) else None
  }

  function AsI64(v: Json): Option<int> {
    if v.Num? && I64_MIN <= v.n <= I64_MAX then Some(v.n) else None
  }

  function AsStr(v: Json): Option<string> {
    if v.Str? then Some(v.s) else None
  }

  function AsArr(v: Json): Option<seq<Json>> {
    if v.Arr? then Some(v.items) else None
  }

  // ---- field readers ----

  function RequiredStr(o: Object, k: Key): Option<string> {
    if k in o then AsStr(o[k]) else None
  }

  function NonEmptyStr(o: Object, k: Key): Option<string> {
    var s := RequiredStr(o, k);
    if s == Some("") then None else s
  }

  function RequiredU64(o: Object, k: Key): (r: Option<nat>)
    ensures r.Some? ==> r.value < U64_LIMIT
  {
    if k in o then AsU64(o[k]) else None
  }

  function PositiveU64(o: Object, k: Key): (r: Option<nat>)
    ensures r.Some? ==> 0 < r.value < U64_LIMIT
  {
    var n := RequiredU64(o, k);
    if n == Some(0) then None else n
  }

  function RequiredBool(o: Object, k: Key): Option<bool> {
    if k in o && o[k].Bool? then Some(o[k].b) else None
  }

  function RequiredArr(o: Object, k: Key): Option<seq<Json>> {
    if k in o then AsArr(o[k]) else None
  }

  predicate IsHexDigit(c: char) {
    '0' <= c <= '9' || 'a' <= c <= 'f' || 'A' <= c <= 'F'
  }

  predicate IsFullHash(s: string) {
    |s| == 71 && s[..7] == "sha256:" && forall i :: 7 <= i < 71 ==> IsHexDigit(s[i])
  }

  function FullHashStr(o: Object, k: Key): (r: Option<string>)
    ensures r.Some? ==> IsFullHash(r.value)
  {
    var s := NonEmptyStr(o, k);
    if s.Some? && IsFullHash(s.value) then s else None
  }

  predicate DuplicateFree<T(==)>(s: seq<T>) {
    forall i, j :: 0 <= i < j < |s| ==> s[i] != s[j]
  }

  /** All items are strings: their values, else nothing. */
  function Strings(items: seq<Json>): (r: Option<seq<string>>)
    ensures r.Some? ==> |r.value| == |items| && forall i :: 0 <= i < |items| ==> items[i] == Str(r.value[i])
  {
    if forall i :: 0 <= i < |items| ==> items[i].Str?
    then Some(seq(|items|, i requires 0 <= i < |items| && items[i].Str? => items[i].s))
    else None
  }

  function FullHashArray(o: Object, k: Key): (r: Option<seq<string>>)
    ensures r.Some? ==> r.value != [] && DuplicateFree(r.value)
  {
    var items :- RequiredArr(o, k);
    var hashes :- Strings(items);
    if hashes == [] || !(forall h :: h in hashes ==> IsFullHash(h)) || !DuplicateFree(hashes)
    then None else Some(hashes)
  }

  // ---- arrays of strings ----

  function StrArr(strings: seq<string>): Json {
    Arr(seq(|strings|, i requires 0 <= i < |strings| => Str(strings[i])))
  }

  lemma StrArrStrings(strings: seq<string>)
    ensures Strings(StrArr(strings).items) == Some(strings)
  {
    assert Strings(StrArr(strings).items).value == strings;
  }

  lemma StrArrInjective(a: seq<string>, b: seq<string>)
    requires StrArr(a) == StrArr(b)
    ensures a == b
  {
    StrArrStrings(a);
    StrArrStrings(b);
  }
}
