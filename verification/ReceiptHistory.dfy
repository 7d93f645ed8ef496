/** What an accepted receipt chain guarantees. */
module ReceiptHistory {
  import opened Json
  import opened Text
  import opened Collections
  import opened ReceiptSchema
  import opened ReceiptVerifier

  // ---- tamper evidence ----

  /** Two different values with one digest. */
  ghost predicate Collision(env: Env, x: Json, y: Json) {
    x != y && env.digest(x) == env.digest(y)
  }

  /** The two receipt lists exhibit a digest collision. */
  ghost predicate Collides(env: Env, a: seq<Receipt>, b: seq<Receipt>) {
    exists i, j :: 0 <= i < |a| && 0 <= j < |b| && Collision(env, ReceiptPreimage(a[i]), ReceiptPreimage(b[j]))
  }

  lemma BaseMembers(r: Receipt)
    ensures var m := ReceiptBase(r);
      && Get(m, DStableId) == Some(Str(r.stableId)) && Get(m, Warehouse) == Some(Str(r.warehouse))
      && Get(m, Namespace) == Some(StrArr(r.namespace)) && Get(m, Name) == Some(Str(r.name))
      && Get(m, DViewVersion) == Some(Num(r.version)) && Get(m, Operation) == Some(Str(r.operation))
      && Get(m, DViewHash) == Some(Str(r.viewHash)) && Get(m, DRecordedAt) == Some(Str(r.recordedAt))
      && Get(m, DPrincipal) == Some(Obj(map[DSubject := Str(r.principalSubject), DKind := Str(r.principalKind)]))
      && Get(m, DPreviousViewVersion).None? && Get(m, DPreviousReceiptHash).None?
  {
    hide StrArr;
  }

  lemma PreimageMembers(r: Receipt)
    ensures var m := ReceiptPreimage(r).members;
      && Get(m, DStableId) == Some(Str(r.stableId)) && Get(m, Warehouse) == Some(Str(r.warehouse))
      && Get(m, Namespace) == Some(StrArr(r.namespace)) && Get(m, Name) == Some(Str(r.name))
      && Get(m, DViewVersion) == Some(Num(r.version)) && Get(m, Operation) == Some(Str(r.operation))
      && Get(m, DViewHash) == Some(Str(r.viewHash)) && Get(m, DRecordedAt) == Some(Str(r.recordedAt))
      && Get(m, DPrincipal) == Some(Obj(map[DSubject := Str(r.principalSubject), DKind := Str(r.principalKind)]))
      && Get(m, DPreviousViewVersion)
         == (if r.previousVersion.Some? then Some(Num(r.previousVersion.value)) else None)
      && Get(m, DPreviousReceiptHash)
         == (if r.previousHash.Some? then Some(Str(r.previousHash.value)) else None)
  {
    BaseMembers(r);
    hide ReceiptBase, StrArr;
  }

  /** The receipt preimage determines every field it is made of. */
  lemma ReceiptPreimageInjective(r: Receipt, s: Receipt)
    requires ReceiptPreimage(r) == ReceiptPreimage(s)
    ensures r.(receiptHash := s.receiptHash) == s
  {
    PreimageMembers(r);
    PreimageMembers(s);
    hide ReceiptPreimage, Get, StrArr;
    StrArrInjective(r.namespace, s.namespace);
    var p := map[DSubject := Str(r.principalSubject), DKind := Str(r.principalKind)];
    var q := map[DSubject := Str(s.principalSubject), DKind := Str(s.principalKind)];
    assert p == q;
    assert p[DSubject] == q[DSubject] && p[DKind] == q[DKind];
  }

  lemma HistoryPrefix(env: Env, receipts: seq<Receipt>, n: nat)
    requires History(env, receipts) && n <= |receipts|
    ensures History(env, receipts[..n])
  {
    hide ReceiptPreimage;
    forall i | 0 <= i < n ensures ReceiptOk(env, receipts[..n], i) {
      assert ReceiptOk(env, receipts, i);
    }
  }

  lemma CollidesPrefix(env: Env, a: seq<Receipt>, b: seq<Receipt>, m: nat, n: nat)
    requires m <= |a| && n <= |b| && Collides(env, a[..m], b[..n])
    ensures Collides(env, a, b)
  {
    hide ReceiptPreimage;
    var i, j :| 0 <= i < m && 0 <= j < n && Collision(env, ReceiptPreimage(a[..m][i]), ReceiptPreimage(b[..n][j]));
    assert a[..m][i] == a[i] && b[..n][j] == b[j];
  }

  /** Chain binding: the hash of the last receipt commits to the whole history.  Two accepted
      histories that end in the same receipt hash are the same history, receipt by receipt, or
      else they contain a collision of the digest. */
  lemma {:induction false} HistoryBinding(env: Env, a: seq<Receipt>, b: seq<Receipt>)
    requires History(env, a) && History(env, b) && a != [] && b != []
    requires a[|a| - 1].receiptHash == b[|b| - 1].receiptHash
    ensures a == b || Collides(env, a, b)
  {
    hide ReceiptPreimage;
    var m, n := |a| - 1, |b| - 1;
    assert ReceiptOk(env, a, m) && ReceiptOk(env, b, n);
    if ReceiptPreimage(a[m]) != ReceiptPreimage(b[n]) {
      assert Collision(env, ReceiptPreimage(a[m]), ReceiptPreimage(b[n]));
    } else {
      ReceiptPreimageInjective(a[m], b[n]);
      assert a == a[..m] + [a[m]] && b == b[..n] + [b[n]];
      if m > 0 && n > 0 {
        HistoryPrefix(env, a, m);
        HistoryPrefix(env, b, n);
        HistoryBinding(env, a[..m], b[..n]);
        if Collides(env, a[..m], b[..n]) {
          CollidesPrefix(env, a, b, m, n);
        }
      }
    }
  }

  /** No receipt hash occurs twice in an accepted history, short of a digest collision. */
  lemma NoRepeatedReceiptHash(env: Env, receipts: seq<Receipt>, i: nat, j: nat)
    requires History(env, receipts) && i < j < |receipts|
    requires receipts[i].receiptHash == receipts[j].receiptHash
    ensures Collides(env, receipts, receipts)
  {
    hide ReceiptOk, ReceiptPreimage;
    var a, b := receipts[..i + 1], receipts[..j + 1];
    HistoryPrefix(env, receipts, i + 1);
    HistoryPrefix(env, receipts, j + 1);
    HistoryBinding(env, a, b);
    assert |a| != |b|;
    CollidesPrefix(env, receipts, receipts, i + 1, j + 1);
  }

  lemma ChainPreimageInjective(c: Chain, d: Chain)
    requires ChainPreimage(c) == ChainPreimage(d)
    ensures c.stableId == d.stableId && c.warehouse == d.warehouse && c.namespace == d.namespace && c.name == d.name
    ensures c.latestVersion == d.latestVersion && c.latestOperation == d.latestOperation
    ensures c.tombstoned == d.tombstoned && Hashes(c.receipts) == Hashes(d.receipts)
  {
    hide StrArr, Hashes;
    var m, n := ChainPreimage(c).members, ChainPreimage(d).members;
    assert m[DStableId] == n[DStableId] && m[Warehouse] == n[Warehouse] && m[Name] == n[Name];
    assert m[Namespace] == n[Namespace] && m[DReceiptHashes] == n[DReceiptHashes];
    StrArrInjective(c.namespace, d.namespace);
    StrArrInjective(Hashes(c.receipts), Hashes(d.receipts));
    assert m[DLatestViewVersion] == n[DLatestViewVersion] && m[DLatestOperation] == n[DLatestOperation];
    assert m[Tombstoned] == n[Tombstoned];
  }

  /** Equal chain hashes mean equal chains, histories included, short of a digest collision. */
  lemma ChainHashBinding(env: Env, c: Chain, d: Chain)
    requires ChainOk(env, c) && ChainOk(env, d) && c.chainHash == d.chainHash
    ensures c == d || Collision(env, ChainPreimage(c), ChainPreimage(d)) || Collides(env, c.receipts, d.receipts)
  {
    hide ChainPreimage, ReceiptPreimage, History;
    if ChainPreimage(c) == ChainPreimage(d) {
      ChainPreimageInjective(c, d);
      var n := |c.receipts| - 1;
      assert Hashes(c.receipts)[n] == Hashes(d.receipts)[n];
      HistoryBinding(env, c.receipts, d.receipts);
    }
  }

  // ---- accepted chains, field by field ----

  /** The fields of an accepted chain's receipt: it is of the chain's own view, carries its own digest, and either
      starts the history or is linked to the receipt before it and moves the version on as its operation says. */
  predicate Belongs(env: Env, c: Chain, i: nat)
    requires i < |c.receipts|
  {
    var r := c.receipts[i];
    && r.stableId == c.stableId && r.warehouse == c.warehouse && r.namespace == c.namespace && r.name == c.name
    && r.receiptHash == env.digest(ReceiptPreimage(r))
    && if i == 0 then
         r.operation == "upsert" && r.version == 1 && r.previousVersion == None && r.previousHash == None
       else
         var previous := c.receipts[i - 1];
         && r.previousVersion == Some(previous.version) && r.previousHash == Some(previous.receiptHash)
         && (|| (r.operation == "drop" && r.version == previous.version)
             || (r.operation == "upsert" && previous.version < U64_MAX && r.version == previous.version + 1)
             || (r.operation == "upsert" && previous.version >= U64_MAX && r.version == U64_MAX))
  }

  /** Exactly which chains are accepted. */
  lemma ChainExactly(env: Env, c: Chain)
    ensures ChainOk(env, c) <==>
      && c.stableId == "lakecat:view:" + c.warehouse + ":" + Join(c.namespace, ".") + ":" + c.name
      && c.chainVerified && c.receipts != [] && c.receiptCount == |c.receipts|
      && (forall i :: 0 <= i < |c.receipts| ==> Belongs(env, c, i))
      && var last := c.receipts[|c.receipts| - 1];
      && c.latestVersion == last.version && c.latestOperation == last.operation
      && (c.tombstoned <==> last.operation == "drop")
      && c.chainHash == env.digest(ChainPreimage(c))
  {
    hide ReceiptPreimage, ChainPreimage, Belongs, ReceiptOk, SameView, StableViewId;
    var n := |c.receipts|;
    forall i | 0 <= i < n ensures Belongs(env, c, i) <==> ReceiptOk(env, c.receipts, i) && SameView(c, c.receipts[i]) {
      ReceiptBelongs(env, c, i);
    }
    if n > 0 && Belongs(env, c, n - 1) {
      OperationKnown(env, c, n - 1);
    }
    ViewIdSpelled(c);
  }

  lemma ViewIdSpelled(c: Chain)
    ensures StableViewId(c.warehouse, c.namespace, c.name)
         == "lakecat:view:" + c.warehouse + ":" + Join(c.namespace, ".") + ":" + c.name
  {
  }

  lemma ReceiptBelongs(env: Env, c: Chain, i: nat)
    requires i < |c.receipts|
    ensures Belongs(env, c, i) <==> ReceiptOk(env, c.receipts, i) && SameView(c, c.receipts[i])
  {
    hide ReceiptPreimage;
  }

  lemma OperationKnown(env: Env, c: Chain, i: nat)
    requires i < |c.receipts| && Belongs(env, c, i)
    ensures c.receipts[i].operation in ["upsert", "drop"]
  {
    hide ReceiptPreimage;
  }

  /** Chains of different views share no receipt hash, short of a digest collision. */
  lemma ViewsShareNoReceipt(env: Env, c: Chain, d: Chain, i: nat, j: nat)
    requires ChainOk(env, c) && ChainOk(env, d) && c.stableId != d.stableId
    requires i < |c.receipts| && j < |d.receipts| && c.receipts[i].receiptHash == d.receipts[j].receiptHash
    ensures Collides(env, c.receipts, d.receipts)
  {
    ChainExactly(env, c);
    ChainExactly(env, d);
    assert Belongs(env, c, i) && Belongs(env, d, j);
    hide ReceiptPreimage, ChainOk;
    if ReceiptPreimage(c.receipts[i]) == ReceiptPreimage(d.receipts[j]) {
      ReceiptPreimageInjective(c.receipts[i], d.receipts[j]);
    } else {
      assert Collision(env, ReceiptPreimage(c.receipts[i]), ReceiptPreimage(d.receipts[j]));
    }
  }

  // ---- version arithmetic ----

  function Upserts(receipts: seq<Receipt>): nat {
    if receipts == [] then 0
    else Upserts(receipts[..|receipts| - 1]) + (if receipts[|receipts| - 1].operation == "upsert" then 1 else 0)
  }

  lemma {:induction false} UpsertsBounded(receipts: seq<Receipt>)
    ensures Upserts(receipts) <= |receipts|
  {
    if receipts != [] {
      UpsertsBounded(receipts[..|receipts| - 1]);
    }
  }

  /** The version after receipt `i` counts the upserts so far, up to the saturation of the 64-bit counter. */
  lemma {:induction false} VersionCountsUpserts(env: Env, receipts: seq<Receipt>, i: nat)
    requires History(env, receipts) && i < |receipts|
    ensures 1 <= Upserts(receipts[..i + 1])
    ensures receipts[i].version == if Upserts(receipts[..i + 1]) < U64_MAX then Upserts(receipts[..i + 1]) else U64_MAX
    decreases i
  {
    hide ReceiptPreimage;
    assert ReceiptOk(env, receipts, i);
    assert receipts[..i + 1][..i] == receipts[..i];
    if i == 0 {
      assert Upserts(receipts[..1]) == Upserts([]) + 1;
    } else {
      VersionCountsUpserts(env, receipts, i - 1);
    }
  }

  /** Versions never decrease along an accepted history. */
  lemma {:induction false} VersionsNeverDecrease(env: Env, receipts: seq<Receipt>, i: nat, j: nat)
    requires History(env, receipts) && i <= j < |receipts|
    ensures receipts[i].version <= receipts[j].version
    decreases j
  {
    hide ReceiptPreimage;
    if i < j {
      VersionsNeverDecrease(env, receipts, i, j - 1);
      VersionCountsUpserts(env, receipts, j - 1);
      assert ReceiptOk(env, receipts, j);
    }
  }

  /** Below the counter's limit the version after receipt `i` is the exact number of upserts so far. */
  lemma ExactVersion(env: Env, receipts: seq<Receipt>, i: nat)
    requires History(env, receipts) && i < |receipts| < U64_LIMIT
    ensures receipts[i].version == Upserts(receipts[..i + 1])
  {
    hide History, Upserts;
    VersionCountsUpserts(env, receipts, i);
    UpsertsBounded(receipts[..i + 1]);
  }

  lemma ExactHead(env: Env, c: Chain)
    requires ChainOk(env, c) && c.receiptCount < U64_LIMIT
    ensures c.receipts != [] && c.latestVersion == Upserts(c.receipts)
    ensures c.tombstoned <==> c.receipts[|c.receipts| - 1].operation == "drop"
  {
    hide History, ChainPreimage, Upserts, StableViewId;
    var n := |c.receipts| - 1;
    ExactVersion(env, c.receipts, n);
    assert c.receipts[..n + 1] == c.receipts;
  }

  /** In a chain read from evidence and accepted, the counter never saturates: every version is an
      exact count, the head version is the number of upserts, and `tombstoned` says that the last
      receipt is a drop. */
  lemma AcceptedChainArithmetic(env: Env, v: Json, c: Chain)
    requires ReadChain(env, v) == Some(c) && ChainOk(env, c)
    ensures forall i :: 0 <= i < |c.receipts| ==> c.receipts[i].version == Upserts(c.receipts[..i + 1])
    ensures c.receipts != [] && c.latestVersion == Upserts(c.receipts)
    ensures c.tombstoned <==> c.receipts[|c.receipts| - 1].operation == "drop"
  {
    assert c.receiptCount < U64_LIMIT;
    hide ReadChain;
    ExactHead(env, c);
    forall i | 0 <= i < |c.receipts| ensures c.receipts[i].version == Upserts(c.receipts[..i + 1]) {
      hide Upserts, ChainPreimage, StableViewId, History;
      ExactVersion(env, c.receipts, i);
    }
  }

  // ---- exactness by counting ----

  function HashList(chains: seq<Chain>): (hs: seq<string>)
    ensures |hs| == |chains| && forall i :: 0 <= i < |hs| ==> hs[i] == chains[i].chainHash
  {
    seq(|chains|, i requires 0 <= i < |chains| => chains[i].chainHash)
  }

  /** An accepted group declares exactly the chain hashes and receipt hashes of its chains, although
      the code only checks that each chain hash is declared, that none repeats, and that the counts agree. */
  lemma GroupExact(env: Env, v: Json)
    requires GroupOk(env, v)
    ensures ToSet(ReadGroup(v).value.chainHashes) == ToSet(HashList(GroupChains(env, v)))
    ensures ToSet(ReadGroup(v).value.receiptHashes) == AllReceiptHashes(GroupChains(env, v))
  {
    hide ReadGroup, ChainOk, AllReceiptHashes, ReadChain;
    var g := ReadGroup(v).value;
    var chains := GroupChains(env, v);
    assert ChainsOk(env, g, chains);
    var hashes := HashList(chains);
    assert DuplicateFree(hashes);
    forall h | h in hashes ensures h in g.chainHashes {
      var i :| 0 <= i < |hashes| && hashes[i] == h;
      assert ChainInGroupOk(env, g, chains[i]);
    }
    DistinctSize(g.chainHashes);
    Pigeonhole(hashes, ToSet(g.chainHashes));
  }

  /** Chains of the evidence come from its groups, and each was accepted. */
  lemma {:induction false} EvidenceChainOrigin(env: Env, groups: seq<Json>, c: Chain) returns (g: Json)
    requires c in EvidenceChains(env, groups)
    requires forall x :: x in groups ==> GroupOk(env, x)
    ensures g in groups && c in GroupChains(env, g) && ChainInGroupOk(env, ReadGroup(g).value, c)
  {
    hide ReadGroup, ReadChain, ChainInGroupOk;
    var last := groups[|groups| - 1];
    if c in GroupChains(env, last) {
      assert last in groups;
      g := last;
      var chains := GroupChains(env, g);
      assert ChainsOk(env, ReadGroup(g).value, chains);
    } else {
      g := EvidenceChainOrigin(env, groups[..|groups| - 1], c);
    }
  }

  /** Every accepted view's chain hash is the hash of a valid chain of that same view. */
  lemma AcceptedViewHasValidChain(env: Env, proof: Object, v: Json) returns (g: Json, c: Chain)
    requires EvidenceOk(env, proof) && RequiredU64(proof, ViewCount) != Some(0)
    requires v in proof[Views].items
    ensures ReadAcceptedView(v).Some?
    ensures g in proof[ReceiptChains].items && c in GroupChains(env, g) && ChainOk(env, c)
    ensures c.stableId == ReadAcceptedView(v).value.stableId && c.chainHash == ReadAcceptedView(v).value.chainHash
  {
    hide ReadAcceptedView, ReadGroup, GroupOk, ReadChain, ChainOk;
    var groups := proof[ReceiptChains].items;
    var chains := EvidenceChains(env, groups);
    assert ViewOk(chains, v);
    var accepted := ReadAcceptedView(v).value;
    c :| c in chains && c.stableId == accepted.stableId && c.chainHash == accepted.chainHash;
    g := EvidenceChainOrigin(env, groups, c);
  }

  /** Every tombstone receipt hash is the hash of a receipt in a valid chain of the same view. */
  lemma TombstoneHashHasReceipt(env: Env, proof: Object, t: Json)
    requires EvidenceOk(env, proof) && RequiredU64(proof, ViewCount) != Some(0)
    requires t in proof[TombstoneReceipts].items
    ensures ReadTombstone(t).Some?
    ensures forall h :: h in ReadTombstone(t).value.receiptHashes ==> exists c, r ::
              && c in EvidenceChains(env, proof[ReceiptChains].items) && ChainOk(env, c)
              && c.stableId == ReadTombstone(t).value.stableId && r in c.receipts && r.receiptHash == h
  {
    hide ReadTombstone, ReadGroup, GroupOk, ReadChain, ChainOk;
    var groups := proof[ReceiptChains].items;
    var chains := EvidenceChains(env, groups);
    assert TombstoneOk(chains, t);
    var tombstone := ReadTombstone(t).value;
    forall h | h in tombstone.receiptHashes
      ensures exists c, r :: c in chains && ChainOk(env, c) && c.stableId == tombstone.stableId
                          && r in c.receipts && r.receiptHash == h
    {
      assert h in ReceiptHashesOf(chains, tombstone.stableId);
      var c, r :| c in chains && c.stableId == tombstone.stableId && r in c.receipts && r.receiptHash == h;
      var g := EvidenceChainOrigin(env, groups, c);
    }
  }

  /** In accepted evidence a receipt hash belongs to one view, short of a digest collision. */
  lemma ReceiptHashNamesView(env: Env, proof: Object, c: Chain, d: Chain, r: Receipt, t: Receipt)
    requires EvidenceOk(env, proof) && RequiredU64(proof, ViewCount) != Some(0)
    requires var chains := EvidenceChains(env, proof[ReceiptChains].items); c in chains && d in chains
    requires r in c.receipts && t in d.receipts && r.receiptHash == t.receiptHash
    ensures c.stableId == d.stableId || Collides(env, c.receipts, d.receipts)
  {
    hide ReadAcceptedView, ReadTombstone, ReadGroup, GroupOk, ReadChain, ChainOk, Collides;
    var groups := proof[ReceiptChains].items;
    var g := EvidenceChainOrigin(env, groups, c);
    var h := EvidenceChainOrigin(env, groups, d);
    var i :| 0 <= i < |c.receipts| && c.receipts[i] == r;
    var j :| 0 <= j < |d.receipts| && d.receipts[j] == t;
    if c.stableId != d.stableId {
      ViewsShareNoReceipt(env, c, d, i, j);
    }
  }

  // ---- the two companion checks ----

  /** Accepted receipt hashes of the evidence's views, as the bootstrap comparison reads them. */
  function AcceptedHashes(views: seq<Json>): (r: Option<seq<string>>)
    ensures r.Some? ==> |r.value| == |views|
    ensures r.Some? ==> forall i :: 0 <= i < |views| ==>
              views[i].Obj? && FullHashStr(views[i].members, AcceptedReceiptHash) == Some(r.value[i])
    ensures r.None? ==> exists i ::
              0 <= i < |views| && (views[i].Obj? ==> FullHashStr(views[i].members, AcceptedReceiptHash).None?)
  {
    if views == [] then Some([]) else
    var init :- AcceptedHashes(views[..|views| - 1]);
    var v := views[|views| - 1];
    if !v.Obj? then None else
    var h :- FullHashStr(v.members, AcceptedReceiptHash);
    Some(init + [h])
  }

  const BOOTSTRAP_HASHES := Other("viewVersionReceiptHashes")

  /** With no views the bootstrap lists no hash; otherwise it lists, without repetition, exactly the
      accepted receipt hashes of the views, and those are pairwise different. */
  predicate BootstrapOk(bootstrap: Object, proof: Object) {
    var items, count := RequiredArr(bootstrap, BOOTSTRAP_HASHES), RequiredU64(proof, ViewCount);
    && items.Some? && count.Some?
    && if count.value == 0 then items.value == [] else
       var listed, views := FullHashArray(bootstrap, BOOTSTRAP_HASHES), RequiredArr(proof, Views);
       && listed.Some? && views.Some? && AcceptedHashes(views.value).Some?
       && DuplicateFree(AcceptedHashes(views.value).value)
       && ToSet(AcceptedHashes(views.value).value) == ToSet(listed.value)
  }

  /** The code compares lengths and sets; that the accepted hashes do not repeat follows by counting. */
  method RequireBootstrapHashesMatchViews(bootstrap: Object, proof: Object) returns (ok: bool)
    ensures ok <==> BootstrapOk(bootstrap, proof)
  {
    hide FullHashArray, FullHashStr;
    var items := RequiredArr(bootstrap, BOOTSTRAP_HASHES);
    var count := RequiredU64(proof, ViewCount);
    if items.None? || count.None? {
      return false;
    }
    if count.value == 0 {
      return items.value == [];
    }
    var listed := FullHashArray(bootstrap, BOOTSTRAP_HASHES);
    var views := RequiredArr(proof, Views);
    if listed.None? || views.None? {
      return false;
    }
    var accepted := AcceptedHashes(views.value);
    if accepted.None? {
      return false;
    }
    DistinctSize(listed.value);
    if |listed.value| != |views.value| {
      if DuplicateFree(accepted.value) {
        DistinctSize(accepted.value);
      }
      return false;
    }
    ok := ToSet(listed.value) == ToSet(accepted.value);
    if ok {
      NoDuplicates(accepted.value);
    }
  }

  // ---- expected versions of dropped views ----

  /** The accepted version of a view: the last record for that stable id counts. */
  function AcceptedVersion(views: seq<Json>, stableId: string): Option<nat> {
    if views == [] then None else
    var v := views[|views| - 1];
    if v.Obj? && RequiredStr(v.members, StableId) == Some(stableId)
    then RequiredU64(v.members, AcceptedViewVersion)
    else AcceptedVersion(views[..|views| - 1], stableId)
  }

  predicate VersionedView(v: Json) {
    v.Obj? && RequiredStr(v.members, StableId).Some? && RequiredU64(v.members, AcceptedViewVersion).Some?
  }

  predicate ExpectedVersionOk(views: seq<Json>, t: Json) {
    && t.Obj?
    && var o := t.members;
       var stableId, warehouse, namespace, name :=
         RequiredStr(o, StableId), RequiredStr(o, Warehouse), Components(o), RequiredStr(o, Name);
       && stableId.Some? && warehouse.Some? && namespace.Some? && name.Some?
       && stableId.value == StableViewId(warehouse.value, namespace.value, name.value)
       && RequiredU64(o, ExpectedViewVersion).Some?
       && RequiredU64(o, ExpectedViewVersion) == AcceptedVersion(views, stableId.value)
  }

  predicate ExpectedVersionsOk(proof: Object) {
    var views, tombstones := RequiredArr(proof, Views), RequiredArr(proof, TombstoneReceipts);
    && views.Some? && tombstones.Some?
    && (forall v :: v in views.value ==> VersionedView(v))
    && (forall t :: t in tombstones.value ==> ExpectedVersionOk(views.value, t))
  }

  method RequireTombstoneExpectedVersions(proof: Object) returns (ok: bool)
    ensures ok <==> ExpectedVersionsOk(proof)
  {
    hide Components, StableViewId, RequiredU64, RequiredStr;
    var views, tombstones := RequiredArr(proof, Views), RequiredArr(proof, TombstoneReceipts);
    if views.None? {
      return false;
    }
    var accepted: map<string, nat> := map[];
    assert views.value[..0] == [];
    for i := 0 to |views.value|
      invariant forall j :: 0 <= j < i ==> VersionedView(views.value[j])
      invariant forall id :: Lookup(accepted, id) == AcceptedVersion(views.value[..i], id)
    {
      var v := views.value[i];
      if !VersionedView(v) {
        return false;
      }
      assert views.value[..i + 1][..i] == views.value[..i];
      accepted := accepted[RequiredStr(v.members, StableId).value := RequiredU64(v.members, AcceptedViewVersion).value];
    }
    if tombstones.None? {
      return false;
    }
    assert views.value[..|views.value|] == views.value;
    for i := 0 to |tombstones.value|
      invariant forall j :: 0 <= j < i ==> ExpectedVersionOk(views.value, tombstones.value[j])
    {
      var t := tombstones.value[i];
      assert t in tombstones.value;
      if !t.Obj? {
        return false;
      }
      var o := t.members;
      var stableId, warehouse, namespace, name :=
        RequiredStr(o, StableId), RequiredStr(o, Warehouse), Components(o), RequiredStr(o, Name);
      var expected := RequiredU64(o, ExpectedViewVersion);
      if stableId.None? || warehouse.None? || namespace.None? || name.None? || expected.None?
         || stableId.value != StableViewId(warehouse.value, namespace.value, name.value) {
        return false;
      }
      if Lookup(accepted, stableId.value) != expected {
        return false;
      }
    }
    return true;
  }
}
