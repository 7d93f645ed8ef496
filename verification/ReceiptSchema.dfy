/** The compact view-receipt evidence: what the field checks read from JSON.

    Each `Read…` function is defined exactly where the corresponding run of
    `required_*` checks succeeds.  Whatever depends on more than one record (links,
    digests, coverage) is not decided here. */
module ReceiptSchema {
  import opened Json
  import opened Text

  /** The two operations the evidence leaves to its environment: the SHA-256 of a
      JSON value, and the RFC 3339 parse that brings a time to UTC. */
  datatype Env = Env(digest: Json -> string, normalize: string -> Option<string>)

  datatype Receipt = Receipt(
    stableId: string, warehouse: string, namespace: seq<string>, name: string,
    version: nat, previousVersion: Option<nat>, previousHash: Option<string>,
    operation: string, viewHash: string,
    principalSubject: string, principalKind: string, recordedAt: string,
    receiptHash: string)

  datatype Chain = Chain(
    stableId: string, warehouse: string, namespace: seq<string>, name: string,
    chainHash: string, chainVerified: bool, latestVersion: nat, latestOperation: string,
    tombstoned: bool, receiptCount: nat, receipts: seq<Receipt>)

  datatype Group = Group(
    warehouse: string, namespace: seq<string>, verifiedChainCount: nat,
    receiptHashes: seq<string>, chainHashes: seq<string>, chains: seq<Json>)

  datatype AcceptedView = AcceptedView(stableId: string, version: nat, receiptHash: string, chainHash: string)

  datatype Tombstone = Tombstone(stableId: string, receiptHashes: seq<string>)

  function StableViewId(warehouse: string, namespace: seq<string>, name: string): string {
    "lakecat:view:" + warehouse + ":" + Join(namespace, ".") + ":" + name
  }

  /** `null` is an absent link; anything else must have the wanted type. */
  function Link<T>(o: Object, k: Key, read: (Object, Key) -> Option<T>): Option<Option<T>> {
    if k !in o then None
    else if o[k].Null? then Some(None)
    else var v :- read(o, k); Some(Some(v))
  }

  function Components(o: Object): (r: Option<seq<string>>)
    ensures r.Some? ==> Namespace in o && r.value != [] && "" !in r.value
  {
    var items :- RequiredArr(o, Namespace);
    var parts :- Strings(items);
    if parts == [] || "" in parts then None else Some(parts)
  }

  lemma ComponentsRead(o: Object, parts: seq<string>)
    requires Get(o, Namespace) == Some(StrArr(parts))
    ensures Components(o) == if parts == [] || "" in parts then None else Some(parts)
  {
    StrArrStrings(parts);
    hide Strings;
  }

  function ReadReceipt(env: Env, v: Json): (r: Option<Receipt>)
    ensures r.Some? ==> 0 < r.value.version < U64_LIMIT
  {
    if !v.Obj? then None else
    var o := v.members;
    var stableId :- NonEmptyStr(o, StableId);
    var warehouse :- NonEmptyStr(o, Warehouse);
    var namespace :- Components(o);
    var name :- NonEmptyStr(o, Name);
    var version :- PositiveU64(o, ViewVersion);
    var operation :- RequiredStr(o, Operation);
    var receiptHash :- FullHashStr(o, ReceiptHash);
    var previousVersion :- Link(o, PreviousViewVersion, RequiredU64);
    var previousHash :- Link(o, PreviousReceiptHash, FullHashStr);
    var viewHash :- FullHashStr(o, ViewHash);
    var subject :- NonEmptyStr(o, PrincipalSubject);
    var kind :- NonEmptyStr(o, PrincipalKind);
    var time :- NonEmptyStr(o, RecordedAt);
    var recordedAt :- env.normalize(time);
    Some(Receipt(stableId, warehouse, namespace, name, version, previousVersion, previousHash,
                 operation, viewHash, subject, kind, recordedAt, receiptHash))
  }

  function ReadReceipts(env: Env, items: seq<Json>): (r: Option<seq<Receipt>>)
    ensures r.Some? ==> |r.value| == |items|
    ensures r.Some? ==> forall i :: 0 <= i < |items| ==> ReadReceipt(env, items[i]) == Some(r.value[i])
  {
    if forall i :: 0 <= i < |items| ==> ReadReceipt(env, items[i]).Some?
    then Some(seq(|items|, i requires 0 <= i < |items| && ReadReceipt(env, items[i]).Some? =>
                             ReadReceipt(env, items[i]).value))
    else None
  }

  function ReadChain(env: Env, v: Json): (r: Option<Chain>)
    ensures r.Some? ==> 0 < r.value.receiptCount < U64_LIMIT
  {
    if !v.Obj? then None else
    var o := v.members;
    var stableId :- NonEmptyStr(o, StableId);
    var warehouse :- NonEmptyStr(o, Warehouse);
    var namespace :- Components(o);
    var name :- NonEmptyStr(o, Name);
    var chainHash :- FullHashStr(o, ChainHash);
    var chainVerified :- RequiredBool(o, ChainVerified);
    var latestVersion :- PositiveU64(o, LatestViewVersion);
    var latestOperation :- RequiredStr(o, LatestOperation);
    var tombstoned :- RequiredBool(o, Tombstoned);
    var receiptCount :- PositiveU64(o, ReceiptCount);
    var items :- RequiredArr(o, Receipts);
    var receipts :- ReadReceipts(env, items);
    Some(Chain(stableId, warehouse, namespace, name, chainHash, chainVerified, latestVersion,
               latestOperation, tombstoned, receiptCount, receipts))
  }

  function ReadGroup(v: Json): (r: Option<Group>)
    ensures r.Some? ==> DuplicateFree(r.value.chainHashes) && DuplicateFree(r.value.receiptHashes)
    ensures r.Some? ==> 0 < r.value.verifiedChainCount
  {
    if !v.Obj? then None else
    var o := v.members;
    var warehouse :- NonEmptyStr(o, Warehouse);
    var namespace :- Components(o);
    var count :- PositiveU64(o, VerifiedChainCount);
    var receiptHashes :- FullHashArray(o, ReceiptHashes);
    var chainHashes :- FullHashArray(o, ChainHashes);
    var chains :- RequiredArr(o, Chains);
    var _ :- FullHashArray(o, ReplayEventHashes);
    var _ :- FullHashArray(o, OpenLineageHashes);
    Some(Group(warehouse, namespace, count, receiptHashes, chainHashes, chains))
  }

  function ReadAcceptedView(v: Json): (r: Option<AcceptedView>)
    ensures r.Some? ==> 0 < r.value.version
  {
    if !v.Obj? then None else
    var o := v.members;
    var stableId :- NonEmptyStr(o, StableId);
    var warehouse :- NonEmptyStr(o, Warehouse);
    var namespace :- Components(o);
    var name :- NonEmptyStr(o, Name);
    var version :- RequiredU64(o, ViewVersion);
    var accepted :- RequiredU64(o, AcceptedViewVersion);
    var receiptHash :- FullHashStr(o, AcceptedReceiptHash);
    var _ :- PositiveU64(o, GraphEvents);
    var chainHash :- FullHashStr(o, AcceptedReceiptChainHash);
    var _ :- FullHashArray(o, ReplayEventHashes);
    var _ :- FullHashArray(o, OpenLineageHashes);
    if stableId != StableViewId(warehouse, namespace, name) || version == 0 || version != accepted
    then None
    else Some(AcceptedView(stableId, accepted, receiptHash, chainHash))
  }

  function ReadTombstone(v: Json): (r: Option<Tombstone>)
    ensures r.Some? ==> r.value.receiptHashes != []
  {
    if !v.Obj? then None else
    var o := v.members;
    var stableId :- RequiredStr(o, StableId);
    var hashes :- FullHashArray(o, ReceiptHashes);
    var _ :- FullHashArray(o, ReplayEventHashes);
    var _ :- FullHashArray(o, OpenLineageHashes);
    Some(Tombstone(stableId, hashes))
  }

  // ---- closed schemas ----

  const PROOF_FIELDS := {ViewCount, Views, TombstoneReceipts, ReceiptChains}
  const VIEW_FIELDS :=
    {StableId, Warehouse, Namespace, Name, ViewVersion, AcceptedViewVersion, AcceptedReceiptHash,
     AcceptedReceiptChainHash, EventType, ExpectedViewVersion, GraphEvents, ReplayEventHashes,
     OpenLineageHashes}
  const TOMBSTONE_FIELDS :=
    {StableId, Warehouse, Namespace, Name, ExpectedViewVersion, ReceiptHashes, ReplayEventHashes,
     OpenLineageHashes}
  const GROUP_FIELDS :=
    {Warehouse, Namespace, VerifiedChainCount, ReceiptHashes, ChainHashes, Chains,
     ReplayEventHashes, OpenLineageHashes}
  const CHAIN_FIELDS :=
    {StableId, Warehouse, Namespace, Name, ChainHash, ChainVerified, LatestViewVersion,
     LatestOperation, Tombstoned, ReceiptCount, Receipts}
  const RECEIPT_FIELDS :=
    {StableId, Warehouse, Namespace, Name, ViewVersion, PreviousViewVersion, PreviousReceiptHash,
     Operation, ViewHash, ReceiptHash, PrincipalSubject, PrincipalKind, RecordedAt}

  predicate Closed(v: Json, fields: set<Key>) {
    v.Obj? && v.members.Keys <= fields
  }

  predicate ClosedArr(o: Object, k: Key, fields: set<Key>) {
    var items := RequiredArr(o, k);
    items.Some? && forall v :: v in items.value ==> Closed(v, fields)
  }

  predicate ClosedChain(v: Json) {
    Closed(v, CHAIN_FIELDS) && ClosedArr(v.members, Receipts, RECEIPT_FIELDS)
  }

  predicate ClosedGroup(v: Json) {
    && Closed(v, GROUP_FIELDS)
    && var chains := RequiredArr(v.members, Chains);
       chains.Some? && forall c :: c in chains.value ==> ClosedChain(c)
  }

  predicate ClosedProof(views: Object) {
    && views.Keys <= PROOF_FIELDS
    && ClosedArr(views, Views, VIEW_FIELDS)
    && ClosedArr(views, TombstoneReceipts, TOMBSTONE_FIELDS)
    && var groups := RequiredArr(views, ReceiptChains);
       groups.Some? && forall g :: g in groups.value ==> ClosedGroup(g)
  }
}
