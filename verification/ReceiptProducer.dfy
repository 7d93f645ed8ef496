/** The producer of compact receipt chains: chains cut back to an accepted receipt,
    and its agreement with the verifier. */
module ReceiptProducer {
  import opened Json
  import opened Collections
  import opened ReceiptSchema
  import opened ReceiptVerifier
  import opened ReceiptHistory

  /** Receipts and chains as the catalog lists them. */
  datatype ReceiptResponse = ReceiptResponse(
    stableId: string, warehouse: string, namespace: seq<string>, name: string,
    viewVersion: nat, previousViewVersion: Option<nat>, previousReceiptHash: Option<string>,
    operation: string, viewHash: string, receiptHash: string,
    principalSubject: string, principalKind: string, recordedAt: string)

  datatype ChainResponse = ChainResponse(
    stableId: string, warehouse: string, namespace: seq<string>, name: string,
    chainHash: string, chainVerified: bool, latestVersion: nat, latestOperation: string,
    tombstoned: bool, receiptCount: nat, receipts: seq<ReceiptResponse>)

  /** What a bootstrap verification accepted, view by view. */
  datatype Bootstrap = Bootstrap(
    viewCount: nat, verifiedViews: seq<string>, versions: map<string, nat>,
    receiptHashes: map<string, string>, chainHashes: map<string, string>)

  function CompactReceipt(r: ReceiptResponse): Json {
    Obj(map[StableId := Str(r.stableId), Warehouse := Str(r.warehouse), Namespace := StrArr(r.namespace),
            Name := Str(r.name), ViewVersion := Num(r.viewVersion),
            PreviousViewVersion := if r.previousViewVersion.Some? then Num(r.previousViewVersion.value) else Null,
            PreviousReceiptHash := if r.previousReceiptHash.Some? then Str(r.previousReceiptHash.value) else Null,
            Operation := Str(r.operation), ViewHash := Str(r.viewHash), ReceiptHash := Str(r.receiptHash),
            PrincipalSubject := Str(r.principalSubject), PrincipalKind := Str(r.principalKind),
            RecordedAt := Str(r.recordedAt)])
  }

  function CompactReceipts(receipts: seq<ReceiptResponse>): (items: seq<Json>)
    ensures |items| == |receipts| && forall i :: 0 <= i < |items| ==> items[i] == CompactReceipt(receipts[i])
  {
    seq(|receipts|, i requires 0 <= i < |receipts| => CompactReceipt(receipts[i]))
  }

  function CompactChain(c: ChainResponse): Json {
    Obj(map[StableId := Str(c.stableId), Warehouse := Str(c.warehouse), Namespace := StrArr(c.namespace),
            Name := Str(c.name), ChainHash := Str(c.chainHash), ChainVerified := Bool(c.chainVerified),
            LatestViewVersion := Num(c.latestVersion), LatestOperation := Str(c.latestOperation),
            Tombstoned := Bool(c.tombstoned), ReceiptCount := Num(c.receiptCount),
            Receipts := Arr(CompactReceipts(c.receipts))])
  }

  /** The chain cut after receipt `i`, with the accepted version and chain hash as its head. */
  function Truncated(c: ChainResponse, i: nat, version: nat, chainHash: string): Json
    requires i < |c.receipts|
  {
    CompactChain(c.(chainHash := chainHash, chainVerified := true, latestVersion := version,
                    latestOperation := c.receipts[i].operation, tombstoned := false,
                    receiptCount := i + 1, receipts := c.receipts[..i + 1]))
  }

  function Position(receipts: seq<ReceiptResponse>, hash: string): (r: Option<nat>)
    ensures r.None? ==> forall j :: 0 <= j < |receipts| ==> receipts[j].receiptHash != hash
    ensures r.Some? ==> r.value < |receipts| && receipts[r.value].receiptHash == hash
    ensures r.Some? ==> forall j :: 0 <= j < r.value ==> receipts[j].receiptHash != hash
  {
    if receipts == [] then None
    else if receipts[0].receiptHash == hash then Some(0)
    else var i :- Position(receipts[1..], hash); Some(i + 1)
  }

  function FindChain(chains: seq<ChainResponse>, stableId: string): (r: Option<ChainResponse>)
    ensures r.Some? ==> exists i :: 0 <= i < |chains| && chains[i] == r.value && r.value.stableId == stableId
                                    && forall j :: 0 <= j < i ==> chains[j].stableId != stableId
    ensures r.None? ==> forall c :: c in chains ==> c.stableId != stableId
  {
    if chains == [] then None
    else if chains[0].stableId == stableId then Some(chains[0])
    else FindChain(chains[1..], stableId)
  }

  /** The chain the producer would add for a verified view, when everything it needs is at hand. */
  function CutFor(listed: seq<ChainResponse>, b: Bootstrap, id: string): Option<Json> {
    var chainHash :- Lookup(b.chainHashes, id);
    var receiptHash :- Lookup(b.receiptHashes, id);
    var version :- Lookup(b.versions, id);
    var chain :- FindChain(listed, id);
    var i :- Position(chain.receipts, receiptHash);
    Some(Truncated(chain, i, version, chainHash))
  }

  function HashOf(v: Json): Option<string> {
    var h :- Member(v, ChainHash); AsStr(h)
  }

  function KnownHashes(chains: seq<Json>): set<string> {
    set c | c in chains && HashOf(c).Some? :: HashOf(c).value
  }

  function Verified(listed: seq<ChainResponse>): seq<Json> {
    if listed == [] then []
    else
      var c := listed[|listed| - 1];
      Verified(listed[..|listed| - 1]) + (if c.chainVerified then [CompactChain(c)] else [])
  }

  /** The chains after the first `n` verified views have been looked at. */
  function Produced(listed: seq<ChainResponse>, b: Bootstrap, n: nat): seq<Json>
    requires n <= |b.verifiedViews|
  {
    if n == 0 then Verified(listed) else
    var chains := Produced(listed, b, n - 1);
    var id := b.verifiedViews[n - 1];
    var cut := CutFor(listed, b, id);
    if cut.None? || b.chainHashes[id] in KnownHashes(chains) then chains
    else chains + [cut.value]
  }

  lemma CutHash(listed: seq<ChainResponse>, b: Bootstrap, id: string)
    requires CutFor(listed, b, id).Some?
    ensures id in b.chainHashes && HashOf(CutFor(listed, b, id).value) == Some(b.chainHashes[id])
  {
  }

  lemma KnownHashesAppend(chains: seq<Json>, c: Json)
    requires HashOf(c).Some?
    ensures KnownHashes(chains + [c]) == KnownHashes(chains) + {HashOf(c).value}
  {
    hide HashOf;
  }

  method CompactViewReceiptChains(listed: seq<ChainResponse>, b: Bootstrap) returns (chains: seq<Json>)
    ensures chains == Produced(listed, b, |b.verifiedViews|)
  {
    hide KnownHashes, HashOf, CompactChain;
    chains := [];
    assert listed[..0] == [];
    for i := 0 to |listed|
      invariant chains == Verified(listed[..i])
    {
      assert listed[..i + 1][..i] == listed[..i];
      if listed[i].chainVerified {
        chains := chains + [CompactChain(listed[i])];
      }
    }
    assert listed[..|listed|] == listed;
    var chainHashes := KnownHashes(chains);
    for n := 0 to |b.verifiedViews|
      invariant chains == Produced(listed, b, n)
      invariant chainHashes == KnownHashes(chains)
    {
      var id := b.verifiedViews[n];
      var chainHash := Lookup(b.chainHashes, id);
      if chainHash.None? || chainHash.value in chainHashes {
        continue;
      }
      var receiptHash, version, chain := Lookup(b.receiptHashes, id), Lookup(b.versions, id), FindChain(listed, id);
      if receiptHash.None? || version.None? || chain.None? {
        continue;
      }
      var index := Position(chain.value.receipts, receiptHash.value);
      if index.None? {
        continue;
      }
      var cut := Truncated(chain.value, index.value, version.value, chainHash.value);
      CutHash(listed, b, id);
      KnownHashesAppend(chains, cut);
      chains := chains + [cut];
      chainHashes := chainHashes + {chainHash.value};
    }
  }

  /** Chains added by the loop never repeat a chain hash that is already there. */
  lemma {:induction false} AddedHashesAreNew(listed: seq<ChainResponse>, b: Bootstrap, n: nat, i: nat)
    requires n <= |b.verifiedViews|
    requires |Verified(listed)| <= i < |Produced(listed, b, n)|
    ensures HashOf(Produced(listed, b, n)[i]).Some?
    ensures HashOf(Produced(listed, b, n)[i]).value !in KnownHashes(Produced(listed, b, n)[..i])
  {
    hide HashOf, KnownHashes, CutFor;
    if n > 0 {
      var before, after := Produced(listed, b, n - 1), Produced(listed, b, n);
      if i < |before| {
        AddedHashesAreNew(listed, b, n - 1, i);
        assert after[..i] == before[..i];
      } else {
        CutHash(listed, b, b.verifiedViews[n - 1]);
        assert after[..i] == before;
      }
    }
  }

  /** Every verified view whose accepted receipt can be found ends up with its accepted chain hash listed. */
  lemma {:induction false} AcceptedHashesAreListed(listed: seq<ChainResponse>, b: Bootstrap, n: nat, k: nat)
    requires k < n <= |b.verifiedViews|
    requires CutFor(listed, b, b.verifiedViews[k]).Some?
    ensures b.verifiedViews[k] in b.chainHashes
    ensures b.chainHashes[b.verifiedViews[k]] in KnownHashes(Produced(listed, b, n))
  {
    hide HashOf, KnownHashes, CutFor;
    var id := b.verifiedViews[n - 1];
    var before := Produced(listed, b, n - 1);
    CutHash(listed, b, b.verifiedViews[k]);
    if k < n - 1 {
      AcceptedHashesAreListed(listed, b, n - 1, k);
    }
    if CutFor(listed, b, id).Some? {
      CutHash(listed, b, id);
      KnownHashesAppend(before, CutFor(listed, b, id).value);
    }
  }

  // ---- what is produced ----

  /** How many of the first `n` listed chains are verified. */
  function VerifiedBefore(listed: seq<ChainResponse>, n: nat): nat
    requires n <= |listed|
  {
    |set i | 0 <= i < n && listed[i].chainVerified|
  }

  lemma VerifiedNext(listed: seq<ChainResponse>, n: nat)
    requires n < |listed|
    ensures VerifiedBefore(listed, n + 1) == VerifiedBefore(listed, n) + (if listed[n].chainVerified then 1 else 0)
  {
    var before := set i | 0 <= i < n && listed[i].chainVerified;
    var after := set i | 0 <= i < n + 1 && listed[i].chainVerified;
    assert after == if listed[n].chainVerified then before + {n} else before;
  }

  lemma {:induction false} VerifiedPlaces(listed: seq<ChainResponse>, n: nat)
    requires n <= |listed|
    ensures |Verified(listed[..n])| == VerifiedBefore(listed, n)
    ensures forall i :: 0 <= i < n && listed[i].chainVerified ==>
              VerifiedBefore(listed, i) < VerifiedBefore(listed, n)
              && Verified(listed[..n])[VerifiedBefore(listed, i)] == CompactChain(listed[i])
    decreases n
  {
    hide CompactChain, VerifiedBefore;
    if n == 0 {
      assert VerifiedBefore(listed, 0) == 0 by { NoneBefore(listed); }
    } else {
      VerifiedPlaces(listed, n - 1);
      VerifiedNext(listed, n - 1);
      assert listed[..n][..n - 1] == listed[..n - 1];
    }
  }

  lemma NoneBefore(listed: seq<ChainResponse>)
    ensures VerifiedBefore(listed, 0) == 0
  {
  }

  /** The chain is the one cut for a verified view: its accepted chain hash and version are known, a chain of the view
      was listed, and the first such chain is cut right after the first receipt with the accepted hash. */
  predicate CutOf(listed: seq<ChainResponse>, b: Bootstrap, id: string, x: Json, at: nat, i: nat)
    requires at < |listed| && i < |listed[at].receipts|
  {
    var c := listed[at];
    && id in b.chainHashes && id in b.receiptHashes && id in b.versions
    && c.stableId == id && (forall j :: 0 <= j < at ==> listed[j].stableId != id)
    && c.receipts[i].receiptHash == b.receiptHashes[id]
    && (forall j :: 0 <= j < i ==> c.receipts[j].receiptHash != b.receiptHashes[id])
    && x == CompactChain(ChainResponse(
         id, c.warehouse, c.namespace, c.name, b.chainHashes[id], true, b.versions[id],
         c.receipts[i].operation, false, i + 1, c.receipts[..i + 1]))
  }

  /** Exactly when a chain is cut for a view, and which. */
  lemma CutExactly(listed: seq<ChainResponse>, b: Bootstrap, id: string, x: Json)
    ensures CutFor(listed, b, id) == Some(x) <==>
              exists at: nat, i: nat :: at < |listed| && i < |listed[at].receipts| && CutOf(listed, b, id, x, at, i)
  {
    hide CompactChain;
    var chain := FindChain(listed, id);
    if CutFor(listed, b, id) == Some(x) {
      var at :| 0 <= at < |listed| && listed[at] == chain.value && listed[at].stableId == id
                && forall j :: 0 <= j < at ==> listed[j].stableId != id;
      var i := Position(chain.value.receipts, b.receiptHashes[id]).value;
      assert CutOf(listed, b, id, x, at, i);
    }
    forall at: nat, i: nat | at < |listed| && i < |listed[at].receipts| && CutOf(listed, b, id, x, at, i)
      ensures CutFor(listed, b, id) == Some(x)
    {
      assert listed[at] in listed;
      assert chain == Some(listed[at]);
      assert Position(listed[at].receipts, b.receiptHashes[id]) == Some(i);
    }
  }

  /** What the producer's loop puts out: first every listed chain that is verified, in the order of the listing and
      nothing else, whether or not its view was dropped; after them only chains cut for verified views. */
  lemma {:induction false} ProducedExactly(listed: seq<ChainResponse>, b: Bootstrap, n: nat)
    requires n <= |b.verifiedViews|
    ensures VerifiedBefore(listed, |listed|) <= |Produced(listed, b, n)|
    ensures forall i :: 0 <= i < |listed| && listed[i].chainVerified ==>
              && VerifiedBefore(listed, i) < VerifiedBefore(listed, |listed|)
              && Produced(listed, b, n)[VerifiedBefore(listed, i)] == CompactChain(listed[i])
    ensures forall p :: VerifiedBefore(listed, |listed|) <= p < |Produced(listed, b, n)| ==>
              exists k :: 0 <= k < n && CutFor(listed, b, b.verifiedViews[k]) == Some(Produced(listed, b, n)[p])
    decreases n
  {
    hide CompactChain, CutFor, VerifiedBefore, KnownHashes;
    if n == 0 {
      VerifiedPlaces(listed, |listed|);
      assert listed[..|listed|] == listed;
    } else {
      ProducedExactly(listed, b, n - 1);
    }
  }

  // ---- agreement with the verifier ----

  lemma ReceiptLinksRead(o: Object, r: ReceiptResponse)
    requires Get(o, PreviousViewVersion)
          == Some(if r.previousViewVersion.Some? then Num(r.previousViewVersion.value) else Null)
    requires Get(o, PreviousReceiptHash)
          == Some(if r.previousReceiptHash.Some? then Str(r.previousReceiptHash.value) else Null)
    ensures Link(o, PreviousViewVersion, RequiredU64)
         == if r.previousViewVersion.Some? && r.previousViewVersion.value >= U64_LIMIT then None
            else Some(r.previousViewVersion)
    ensures Link(o, PreviousReceiptHash, FullHashStr)
         == if r.previousReceiptHash.Some? && !IsFullHash(r.previousReceiptHash.value) then None
            else Some(r.previousReceiptHash)
  {
    assert !IsFullHash("");
    hide IsFullHash;
  }

  lemma CompactReceiptFields(r: ReceiptResponse)
    ensures CompactReceipt(r).Obj?
    ensures var o := CompactReceipt(r).members;
      && NonEmptyStr(o, StableId) == NonEmpty(r.stableId) && NonEmptyStr(o, Warehouse) == NonEmpty(r.warehouse)
      && NonEmptyStr(o, Name) == NonEmpty(r.name)
      && PositiveU64(o, ViewVersion) == (if 0 < r.viewVersion < U64_LIMIT then Some(r.viewVersion) else None)
      && RequiredStr(o, Operation) == Some(r.operation)
      && FullHashStr(o, ReceiptHash) == (if IsFullHash(r.receiptHash) then Some(r.receiptHash) else None)
      && FullHashStr(o, ViewHash) == (if IsFullHash(r.viewHash) then Some(r.viewHash) else None)
      && NonEmptyStr(o, PrincipalSubject) == NonEmpty(r.principalSubject)
      && NonEmptyStr(o, PrincipalKind) == NonEmpty(r.principalKind)
      && NonEmptyStr(o, RecordedAt) == NonEmpty(r.recordedAt)
  {
    CompactReceiptMembers(r);
    assert !IsFullHash("");
    hide CompactReceipt, IsFullHash, StrArr;
  }

  predicate ProperReceipt(env: Env, r: ReceiptResponse) {
    && r.stableId != "" && r.warehouse != "" && r.namespace != [] && "" !in r.namespace && r.name != ""
    && 0 < r.viewVersion < U64_LIMIT && IsFullHash(r.receiptHash) && IsFullHash(r.viewHash)
    && (r.previousViewVersion.Some? ==> r.previousViewVersion.value < U64_LIMIT)
    && (r.previousReceiptHash.Some? ==> IsFullHash(r.previousReceiptHash.value))
    && r.principalSubject != "" && r.principalKind != "" && r.recordedAt != "" && env.normalize(r.recordedAt).Some?
  }

  /** A compact receipt is read back, field for field, exactly when all its fields are well-formed. */
  lemma CompactReceiptRead(env: Env, r: ReceiptResponse)
    ensures ReadReceipt(env, CompactReceipt(r))
         == if ProperReceipt(env, r)
            then Some(Receipt(r.stableId, r.warehouse, r.namespace, r.name, r.viewVersion, r.previousViewVersion,
                              r.previousReceiptHash, r.operation, r.viewHash, r.principalSubject, r.principalKind,
                              env.normalize(r.recordedAt).value, r.receiptHash))
            else None
  {
    hide CompactReceipt, IsFullHash, Link, Components, StrArr, NonEmptyStr, PositiveU64, FullHashStr, RequiredStr;
    CompactReceiptMembers(r);
    CompactReceiptFields(r);
    var o := CompactReceipt(r).members;
    ReceiptLinksRead(o, r);
    ComponentsRead(o, r.namespace);
    hide Get;
  }

  lemma CompactReceiptMembers(r: ReceiptResponse)
    ensures CompactReceipt(r).Obj?
    ensures var o := CompactReceipt(r).members;
      && Get(o, StableId) == Some(Str(r.stableId)) && Get(o, Warehouse) == Some(Str(r.warehouse))
      && Get(o, Namespace) == Some(StrArr(r.namespace)) && Get(o, Name) == Some(Str(r.name))
      && Get(o, ViewVersion) == Some(Num(r.viewVersion)) && Get(o, Operation) == Some(Str(r.operation))
      && Get(o, PreviousViewVersion)
         == Some(if r.previousViewVersion.Some? then Num(r.previousViewVersion.value) else Null)
      && Get(o, PreviousReceiptHash)
         == Some(if r.previousReceiptHash.Some? then Str(r.previousReceiptHash.value) else Null)
      && Get(o, ViewHash) == Some(Str(r.viewHash)) && Get(o, ReceiptHash) == Some(Str(r.receiptHash))
      && Get(o, PrincipalSubject) == Some(Str(r.principalSubject))
      && Get(o, PrincipalKind) == Some(Str(r.principalKind)) && Get(o, RecordedAt) == Some(Str(r.recordedAt))
  {
    hide StrArr;
  }

  /** What the reader makes of a compact chain. */
  lemma CompactChainRead(env: Env, c: ChainResponse)
    ensures var receipts := ReadReceipts(env, CompactReceipts(c.receipts));
      var v := ReadChain(env, CompactChain(c));
      && (v.Some? <==>
            && c.stableId != "" && c.warehouse != "" && c.namespace != [] && "" !in c.namespace && c.name != ""
            && IsFullHash(c.chainHash) && 0 < c.latestVersion < U64_LIMIT && 0 < c.receiptCount < U64_LIMIT
            && receipts.Some?)
      && (v.Some? ==> v.value == Chain(c.stableId, c.warehouse, c.namespace, c.name, c.chainHash, c.chainVerified,
                                       c.latestVersion, c.latestOperation, c.tombstoned, c.receiptCount,
                                       receipts.value))
  {
    CompactChainFields(c);
    CompactNamespaceRead(c);
    hide CompactChain, Components, ReadReceipts, IsFullHash, NonEmptyStr, FullHashStr, RequiredBool, PositiveU64,
      RequiredStr, RequiredArr, CompactReceipts;
  }

  function NonEmpty(s: string): Option<string> {
    if s == "" then None else Some(s)
  }

  lemma CompactChainFields(c: ChainResponse)
    ensures CompactChain(c).Obj?
    ensures var m := CompactChain(c).members;
      && NonEmptyStr(m, StableId) == NonEmpty(c.stableId) && NonEmptyStr(m, Warehouse) == NonEmpty(c.warehouse)
      && NonEmptyStr(m, Name) == NonEmpty(c.name)
      && FullHashStr(m, ChainHash) == (if IsFullHash(c.chainHash) then Some(c.chainHash) else None)
      && RequiredBool(m, ChainVerified) == Some(c.chainVerified)
      && PositiveU64(m, LatestViewVersion) == (if 0 < c.latestVersion < U64_LIMIT then Some(c.latestVersion) else None)
      && RequiredStr(m, LatestOperation) == Some(c.latestOperation)
      && RequiredBool(m, Tombstoned) == Some(c.tombstoned)
      && PositiveU64(m, ReceiptCount) == (if 0 < c.receiptCount < U64_LIMIT then Some(c.receiptCount) else None)
      && RequiredArr(m, Receipts) == Some(CompactReceipts(c.receipts))
  {
    assert !IsFullHash("");
    hide IsFullHash, CompactReceipts;
    CompactChainMembers(c);
    hide CompactChain, StrArr;
  }

  lemma CompactNamespaceRead(c: ChainResponse)
    ensures Components(CompactChain(c).members)
         == if c.namespace == [] || "" in c.namespace then None else Some(c.namespace)
  {
    CompactChainMembers(c);
    ComponentsRead(CompactChain(c).members, c.namespace);
  }

  lemma CompactChainMembers(c: ChainResponse)
    ensures CompactChain(c).Obj?
    ensures var m := CompactChain(c).members;
      && Get(m, StableId) == Some(Str(c.stableId)) && Get(m, Warehouse) == Some(Str(c.warehouse))
      && Get(m, Namespace) == Some(StrArr(c.namespace)) && Get(m, Name) == Some(Str(c.name))
      && Get(m, ChainHash) == Some(Str(c.chainHash)) && Get(m, ChainVerified) == Some(Bool(c.chainVerified))
      && Get(m, LatestViewVersion) == Some(Num(c.latestVersion))
      && Get(m, LatestOperation) == Some(Str(c.latestOperation))
      && Get(m, Tombstoned) == Some(Bool(c.tombstoned)) && Get(m, ReceiptCount) == Some(Num(c.receiptCount))
      && Get(m, Receipts) == Some(Arr(CompactReceipts(c.receipts)))
  {
  }

  /** The chain a reader sees in the prefix of a valid chain. */
  function PrefixChain(c: Chain, i: nat): Chain
    requires i < |c.receipts|
  {
    c.(latestVersion := c.receipts[i].version, latestOperation := c.receipts[i].operation, tombstoned := false,
       receiptCount := i + 1, receipts := c.receipts[..i + 1])
  }

  /** Producer/verifier agreement.  A chain cut out of a valid chain at receipt `i` is itself accepted
      exactly when that receipt is an upsert and the accepted version and chain hash are those of
      the prefix. */
  lemma CutAgreesWithVerifier(env: Env, response: ChainResponse, c: Chain, i: nat, version: nat, chainHash: string)
    requires ReadChain(env, CompactChain(response)) == Some(c) && ChainOk(env, c)
    requires i < |response.receipts|
    ensures |c.receipts| == |response.receipts|
    ensures var v := ReadChain(env, Truncated(response, i, version, chainHash));
      (v.Some? && ChainOk(env, v.value)) <==>
        && response.receipts[i].operation == "upsert"
        && version == c.receipts[i].version
        && IsFullHash(chainHash) && chainHash == env.digest(ChainPreimage(PrefixChain(c, i)))
  {
    hide CompactChain, IsFullHash, ReadReceipt, CompactReceipt;
    CompactChainRead(env, response);
    var cut := response.(chainHash := chainHash, chainVerified := true, latestVersion := version,
                         latestOperation := response.receipts[i].operation, tombstoned := false,
                         receiptCount := i + 1, receipts := response.receipts[..i + 1]);
    CompactChainRead(env, cut);
    var all, items := CompactReceipts(response.receipts), CompactReceipts(cut.receipts);
    assert forall j :: 0 <= j <= i ==> items[j] == all[j];
    assert ReadReceipts(env, items).Some? && ReadReceipts(env, items).value == c.receipts[..i + 1];
    CompactReceiptRead(env, response.receipts[i]);
    CutOk(env, c, i, version, chainHash);
  }

  lemma CutOk(env: Env, c: Chain, i: nat, version: nat, chainHash: string)
    requires ChainOk(env, c) && i < |c.receipts|
    ensures var p := PrefixChain(c, i).(chainHash := chainHash, chainVerified := true, latestVersion := version);
      ChainOk(env, p) <==>
        && c.receipts[i].operation == "upsert" && version == c.receipts[i].version
        && chainHash == env.digest(ChainPreimage(PrefixChain(c, i)))
  {
    hide History, ReceiptPreimage, StableViewId;
    HistoryPrefix(env, c.receipts, i + 1);
    var p := PrefixChain(c, i).(chainHash := chainHash, chainVerified := true, latestVersion := version);
    assert forall j :: 0 <= j <= i ==> p.receipts[j] == c.receipts[j];
    assert p.receipts[i] == c.receipts[i];
    assert version == c.receipts[i].version ==> ChainPreimage(p) == ChainPreimage(PrefixChain(c, i));
  }

  /** `position` finds the accepted receipt: in a valid chain no other receipt carries its hash,
      short of a digest collision. */
  lemma PositionIsUnique(env: Env, response: ChainResponse, c: Chain, hash: string, j: nat)
    requires ReadChain(env, CompactChain(response)) == Some(c) && ChainOk(env, c)
    requires j < |response.receipts| && response.receipts[j].receiptHash == hash
    ensures Position(response.receipts, hash).Some?
    ensures Position(response.receipts, hash).value == j || Collides(env, c.receipts, c.receipts)
  {
    hide CompactChain, IsFullHash, ReadReceipt, CompactReceipt, History;
    CompactChainRead(env, response);
    var i := Position(response.receipts, hash).value;
    var items := CompactReceipts(response.receipts);
    assert ReadReceipt(env, items[i]) == Some(c.receipts[i]) && ReadReceipt(env, items[j]) == Some(c.receipts[j]);
    CompactReceiptRead(env, response.receipts[i]);
    CompactReceiptRead(env, response.receipts[j]);
    if i < j {
      NoRepeatedReceiptHash(env, c.receipts, i, j);
    }
  }
}
