/** What accepted evidence says, and does not say, about an accepted view's receipt. */
module AcceptedViews {
  import opened Json
  import opened Collections
  import opened ReceiptSchema
  import opened ReceiptVerifier
  import opened ReceiptHistory
  import opened ReceiptProducer

  // ---- what is not checked ----

  /** The view's record with another accepted receipt hash and version. */
  function Relabelled(v: Json, hash: string, version: nat): Json
    requires v.Obj?
  {
    Obj(v.members[AcceptedReceiptHash := Str(hash)][ViewVersion := Num(version)][AcceptedViewVersion := Num(version)])
  }

  lemma RelabelledOthers(v: Json, hash: string, version: nat, k: Key)
    requires v.Obj? && k !in {AcceptedReceiptHash, ViewVersion, AcceptedViewVersion}
    ensures var o, p := v.members, Relabelled(v, hash, version).members;
      && NonEmptyStr(o, k) == NonEmptyStr(p, k) && PositiveU64(o, k) == PositiveU64(p, k)
      && FullHashStr(o, k) == FullHashStr(p, k) && FullHashArray(o, k) == FullHashArray(p, k)
  {
    SameReaders(v.members, Relabelled(v, hash, version).members, k);
  }

  lemma RelabelledRead(v: Json, hash: string, version: nat)
    requires ReadAcceptedView(v).Some? && IsFullHash(hash) && 0 < version < U64_LIMIT
    ensures v.Obj?
    ensures ReadAcceptedView(Relabelled(v, hash, version))
         == Some(ReadAcceptedView(v).value.(receiptHash := hash, version := version))
  {
    hide Relabelled, Components, NonEmptyStr, RequiredU64, FullHashStr, PositiveU64, FullHashArray, StableViewId,
      IsFullHash;
    RelabelledOthers(v, hash, version, StableId);
    RelabelledOthers(v, hash, version, Warehouse);
    RelabelledOthers(v, hash, version, Name);
    RelabelledOthers(v, hash, version, GraphEvents);
    RelabelledOthers(v, hash, version, AcceptedReceiptChainHash);
    RelabelledOthers(v, hash, version, ReplayEventHashes);
    RelabelledOthers(v, hash, version, OpenLineageHashes);
    RelabelledFields(v, hash, version);
  }

  lemma RelabelledFields(v: Json, hash: string, version: nat)
    requires v.Obj? && IsFullHash(hash) && 0 < version < U64_LIMIT
    ensures Relabelled(v, hash, version).Obj?
    ensures var o, p := v.members, Relabelled(v, hash, version).members;
      && Components(p) == Components(o) && RequiredU64(p, ViewVersion) == Some(version)
      && RequiredU64(p, AcceptedViewVersion) == Some(version) && FullHashStr(p, AcceptedReceiptHash) == Some(hash)
  {
    assert hash != "";
    hide IsFullHash;
  }

  lemma SameReaders(o: Object, p: Object, k: Key)
    requires Get(o, k) == Get(p, k)
    ensures NonEmptyStr(o, k) == NonEmptyStr(p, k) && PositiveU64(o, k) == PositiveU64(p, k)
    ensures FullHashStr(o, k) == FullHashStr(p, k) && FullHashArray(o, k) == FullHashArray(p, k)
  {
    hide IsFullHash, Strings;
  }

  /** The evidence check compares neither an accepted view's receipt hash nor its version with the chain that
      covers the view: accepted evidence stays accepted under any other hash and version there. */
  lemma AcceptedReceiptUnchecked(env: Env, proof: Object, i: nat, hash: string, version: nat)
    requires EvidenceOk(env, proof) && RequiredU64(proof, ViewCount) != Some(0)
    requires i < |proof[Views].items| && IsFullHash(hash) && 0 < version < U64_LIMIT
    ensures proof[Views].items[i].Obj?
    ensures var items := proof[Views].items;
      EvidenceOk(env, proof[Views := Arr(items[i := Relabelled(items[i], hash, version)])])
  {
    hide ReadAcceptedView, GroupOk, EvidenceChains, Relabelled, TombstoneOk, ClosedGroup, ChainHashesOf, IsFullHash;
    var items, groups := proof[Views].items, proof[ReceiptChains].items;
    var chains := EvidenceChains(env, groups);
    assert items[i] in items && ViewOk(chains, items[i]);
    RelabelledRead(items[i], hash, version);
    var changed := items[i := Relabelled(items[i], hash, version)];
    var after := proof[Views := Arr(changed)];
    assert forall v :: v in changed ==> v in items || v == Relabelled(items[i], hash, version);
    assert forall v :: v in changed ==> ViewOk(chains, v);
    RelabelledKeys(items[i], hash, version);
    assert forall v :: v in changed ==> Closed(v, VIEW_FIELDS);
    hide ViewOk, Closed;
    assert after.Keys == proof.Keys && |changed| == |items|;
    assert RequiredU64(after, ViewCount) == RequiredU64(proof, ViewCount);
    assert ClosedArr(after, TombstoneReceipts, TOMBSTONE_FIELDS)
        == ClosedArr(proof, TombstoneReceipts, TOMBSTONE_FIELDS);
    assert RequiredArr(after, ReceiptChains) == RequiredArr(proof, ReceiptChains);
    assert RequiredArr(after, Views) == Some(changed);
  }

  lemma RelabelledKeys(v: Json, hash: string, version: nat)
    requires Closed(v, VIEW_FIELDS)
    ensures Closed(Relabelled(v, hash, version), VIEW_FIELDS)
  {
  }

  // ---- what ties a view to its chain ----

  /** The accepted receipt is the head of the chain: its hash, its version, and the view not dropped. */
  predicate HeadOf(c: Chain, v: AcceptedView) {
    && c.receipts != [] && c.receipts[|c.receipts| - 1].receiptHash == v.receiptHash
    && c.latestVersion == v.version && !c.tombstoned
  }

  predicate CoveredBy(chains: seq<Chain>, v: AcceptedView, c: Chain) {
    c in chains && c.stableId == v.stableId && c.chainHash == v.chainHash
  }

  /** So wherever evidence is accepted, other evidence with the same chains is accepted whose view claims a
      receipt that is not the head of the chain covering it. */
  lemma UntiedEvidenceIsAccepted(env: Env, proof: Object, i: nat, c: Chain) returns (other: Object)
    requires EvidenceOk(env, proof) && RequiredU64(proof, ViewCount) != Some(0) && i < |proof[Views].items|
    requires ReadAcceptedView(proof[Views].items[i]).Some?
    requires var v := ReadAcceptedView(proof[Views].items[i]).value;
      CoveredBy(EvidenceChains(env, proof[ReceiptChains].items), v, c)
    ensures EvidenceOk(env, other) && other[ReceiptChains] == proof[ReceiptChains] && i < |other[Views].items|
    ensures var v := ReadAcceptedView(other[Views].items[i]);
      v.Some? && CoveredBy(EvidenceChains(env, other[ReceiptChains].items), v.value, c) && !HeadOf(c, v.value)
  {
    var items := proof[Views].items;
    hide ReadAcceptedView, EvidenceChains, EvidenceOk, Relabelled;
    var v := ReadAcceptedView(items[i]).value;
    var version := if c.latestVersion == 1 then 2 else 1;
    AcceptedHashIsFull(items[i]);
    AcceptedReceiptUnchecked(env, proof, i, v.receiptHash, version);
    RelabelledRead(items[i], v.receiptHash, version);
    other := proof[Views := Arr(items[i := Relabelled(items[i], v.receiptHash, version)])];
  }

  lemma AcceptedHashIsFull(v: Json)
    requires ReadAcceptedView(v).Some?
    ensures IsFullHash(ReadAcceptedView(v).value.receiptHash)
  {
    hide IsFullHash, StableViewId;
  }

  /** An accepted view is covered by one chain only, so whether the accepted receipt is its head can be read
      off any chain that covers it, short of a digest collision. */
  lemma CoveringChainIsUnique(env: Env, groups: seq<Json>, v: AcceptedView, c: Chain, d: Chain)
    requires forall g :: g in groups ==> GroupOk(env, g)
    requires CoveredBy(EvidenceChains(env, groups), v, c) && CoveredBy(EvidenceChains(env, groups), v, d)
    ensures || (HeadOf(c, v) <==> HeadOf(d, v))
            || Collision(env, ChainPreimage(c), ChainPreimage(d)) || Collides(env, c.receipts, d.receipts)
  {
    hide GroupOk, ReadGroup, ChainOk, HeadOf, ChainPreimage, Collides;
    var g := EvidenceChainOrigin(env, groups, c);
    var h := EvidenceChainOrigin(env, groups, d);
    ChainHashBinding(env, c, d);
  }

  /** The exact condition.  A valid chain that covers the view has the accepted receipt as its head exactly when
      the accepted hash is that of its last receipt, that receipt is an upsert, and the accepted version is
      the number of upserts. */
  lemma HeadExactly(env: Env, x: Json, c: Chain, v: AcceptedView)
    requires ReadChain(env, x) == Some(c) && ChainOk(env, c)
    ensures c.receipts != []
    ensures var last := c.receipts[|c.receipts| - 1];
      HeadOf(c, v) <==>
        last.receiptHash == v.receiptHash && last.operation == "upsert" && v.version == Upserts(c.receipts)
  {
    AcceptedChainArithmetic(env, x, c);
    assert c.receipts != [] && c.receipts[|c.receipts| - 1].operation in ["upsert", "drop"];
    assert "upsert"[0] == 'u' && "drop"[0] == 'd';
    hide ReadChain, History;
  }

  // ---- what the producer writes ----

  /** The producer's record of a verified view. */
  function AcceptedOf(b: Bootstrap, id: string): Option<AcceptedView> {
    var version :- Lookup(b.versions, id);
    var receiptHash :- Lookup(b.receiptHashes, id);
    var chainHash :- Lookup(b.chainHashes, id);
    Some(AcceptedView(id, version, receiptHash, chainHash))
  }

  /** A chain cut for a view has the view's accepted receipt as its head, so evidence the producer had to cut
      ties every such view; a chain that covers a view without that was listed as it is. */
  lemma {:induction false} ProducedViewTied(env: Env, listed: seq<ChainResponse>, b: Bootstrap, n: nat, id: string,
                                            x: Json, c: Chain)
    requires n <= |b.verifiedViews| && x in Produced(listed, b, n)
    requires ReadChain(env, x) == Some(c) && c.stableId == id
    ensures || (exists r :: r in listed && r.chainVerified && x == CompactChain(r))
            || (AcceptedOf(b, id).Some? && HeadOf(c, AcceptedOf(b, id).value))
  {
    hide KnownHashes, ReadChain, CompactChain, HeadOf;
    if n == 0 {
      VerifiedAreListed(listed, x);
    } else if x in Produced(listed, b, n - 1) {
      ProducedViewTied(env, listed, b, n - 1, id, x, c);
    } else {
      CutIsTied(env, listed, b, b.verifiedViews[n - 1], c);
    }
  }

  lemma {:induction false} VerifiedAreListed(listed: seq<ChainResponse>, x: Json)
    requires x in Verified(listed)
    ensures exists r :: r in listed && r.chainVerified && x == CompactChain(r)
  {
    hide CompactChain;
    var n := |listed| - 1;
    if x in Verified(listed[..n]) {
      VerifiedAreListed(listed[..n], x);
    } else {
      assert listed[n] in listed;
    }
  }

  lemma CutIsTied(env: Env, listed: seq<ChainResponse>, b: Bootstrap, id: string, c: Chain)
    requires CutFor(listed, b, id).Some? && ReadChain(env, CutFor(listed, b, id).value) == Some(c)
    ensures c.stableId == id && AcceptedOf(b, id).Some? && HeadOf(c, AcceptedOf(b, id).value)
  {
    hide CompactChain, ReadChain, ReadReceipt, CompactReceipt, IsFullHash;
    var chain := FindChain(listed, id).value;
    var i := Position(chain.receipts, b.receiptHashes[id]).value;
    var cut := chain.(chainHash := b.chainHashes[id], chainVerified := true, latestVersion := b.versions[id],
                      latestOperation := chain.receipts[i].operation, tombstoned := false,
                      receiptCount := i + 1, receipts := chain.receipts[..i + 1]);
    CompactChainRead(env, cut);
    assert c.receipts == ReadReceipts(env, CompactReceipts(cut.receipts)).value;
    CompactReceiptRead(env, cut.receipts[i]);
  }
}
