/** The nested verifier of view-receipt chains.

    The predicates say what acceptance means; the methods of `Verification` walk the
    evidence as the code does, updating the per-view sets on the way.  Every rejection
    is the same kind of error (an invalid argument), so a method returns whether it
    accepted.  After a rejection the whole verification is abandoned and its sets are
    not looked at again, so nothing is promised about them. */
module ReceiptVerifier {
  import opened Json
  import opened Collections
  import opened ReceiptSchema

  // ---- digests ----

  function ReceiptBase(r: Receipt): Object {
    map[DStableId := Str(r.stableId), Warehouse := Str(r.warehouse),
        Namespace := StrArr(r.namespace), Name := Str(r.name),
        DViewVersion := Num(r.version), Operation := Str(r.operation),
        DViewHash := Str(r.viewHash), DRecordedAt := Str(r.recordedAt),
        DPrincipal := Obj(map[DSubject := Str(r.principalSubject), DKind := Str(r.principalKind)])]
  }

  function ReceiptPreimage(r: Receipt): Json {
    Obj(ReceiptBase(r)
        + (if r.previousVersion.Some? then map[DPreviousViewVersion := Num(r.previousVersion.value)] else map[])
        + (if r.previousHash.Some? then map[DPreviousReceiptHash := Str(r.previousHash.value)] else map[]))
  }

  function Hashes(receipts: seq<Receipt>): (hs: seq<string>)
    ensures |hs| == |receipts| && forall i :: 0 <= i < |hs| ==> hs[i] == receipts[i].receiptHash
  {
    seq(|receipts|, i requires 0 <= i < |receipts| => receipts[i].receiptHash)
  }

  function ChainPreimage(c: Chain): Json {
    Obj(map[DStableId := Str(c.stableId), Warehouse := Str(c.warehouse),
            Namespace := StrArr(c.namespace), Name := Str(c.name),
            DLatestViewVersion := Num(c.latestVersion), DLatestOperation := Str(c.latestOperation),
            Tombstoned := Bool(c.tombstoned), DReceiptHashes := StrArr(Hashes(c.receipts))])
  }

  // ---- acceptance ----

  function SaturatingSucc(n: nat): nat {
    if n < U64_MAX then n + 1 else U64_MAX
  }

  predicate First(r: Receipt) {
    r.operation == "upsert" && r.version == 1 && r.previousVersion.None? && r.previousHash.None?
  }

  predicate Linked(previous: Receipt, r: Receipt) {
    && r.previousVersion == Some(previous.version)
    && r.previousHash == Some(previous.receiptHash)
    && (|| (r.operation == "upsert" && r.version == SaturatingSucc(previous.version))
        || (r.operation == "drop" && r.version == previous.version))
  }

  predicate ReceiptOk(env: Env, receipts: seq<Receipt>, i: nat)
    requires i < |receipts|
  {
    && receipts[i].receiptHash == env.digest(ReceiptPreimage(receipts[i]))
    && if i == 0 then First(receipts[0]) else Linked(receipts[i - 1], receipts[i])
  }

  /** A hash-linked history: every receipt carries its own digest and follows the one before it. */
  predicate History(env: Env, receipts: seq<Receipt>) {
    forall i :: 0 <= i < |receipts| ==> ReceiptOk(env, receipts, i)
  }

  predicate SameView(c: Chain, r: Receipt) {
    r.stableId == c.stableId && r.warehouse == c.warehouse && r.namespace == c.namespace && r.name == c.name
  }

  predicate ReceiptsOk(env: Env, c: Chain) {
    && c.receipts != []
    && History(env, c.receipts)
    && (forall i :: 0 <= i < |c.receipts| ==> SameView(c, c.receipts[i]))
    && c.receipts[|c.receipts| - 1].version == c.latestVersion
    && c.receipts[|c.receipts| - 1].operation == c.latestOperation
  }

  predicate ChainOk(env: Env, c: Chain) {
    && c.stableId == StableViewId(c.warehouse, c.namespace, c.name)
    && c.chainVerified
    && c.latestOperation in ["upsert", "drop"]
    && (c.tombstoned <==> c.latestOperation == "drop")
    && |c.receipts| == c.receiptCount
    && ReceiptsOk(env, c)
    && c.chainHash == env.digest(ChainPreimage(c))
  }

  function ReadChains(env: Env, items: seq<Json>): (r: Option<seq<Chain>>)
    ensures r.Some? ==> |r.value| == |items|
    ensures r.Some? ==> forall i :: 0 <= i < |items| ==> ReadChain(env, items[i]) == Some(r.value[i])
  {
    if forall i :: 0 <= i < |items| ==> ReadChain(env, items[i]).Some?
    then Some(seq(|items|, i requires 0 <= i < |items| && ReadChain(env, items[i]).Some? =>
                             ReadChain(env, items[i]).value))
    else None
  }

  predicate ChainInGroupOk(env: Env, g: Group, c: Chain) {
    ChainOk(env, c) && c.warehouse == g.warehouse && c.namespace == g.namespace && c.chainHash in g.chainHashes
  }

  predicate DistinctChainHashes(chains: seq<Chain>) {
    forall i, j :: 0 <= i < j < |chains| ==> chains[i].chainHash != chains[j].chainHash
  }

  predicate ChainsOk(env: Env, g: Group, chains: seq<Chain>) {
    && (forall i :: 0 <= i < |chains| ==> ChainInGroupOk(env, g, chains[i]))
    && DistinctChainHashes(chains)
  }

  function HashSet(receipts: seq<Receipt>): set<string> {
    set r | r in receipts :: r.receiptHash
  }

  function AllReceiptHashes(chains: seq<Chain>): set<string> {
    set c, r | c in chains && r in c.receipts :: r.receiptHash
  }

  function ChainHashesOf(chains: seq<Chain>, stableId: string): set<string> {
    set c | c in chains && c.stableId == stableId :: c.chainHash
  }

  function ReceiptHashesOf(chains: seq<Chain>, stableId: string): set<string> {
    set c, r | c in chains && c.stableId == stableId && r in c.receipts :: r.receiptHash
  }

  predicate GroupOk(env: Env, v: Json) {
    var group := ReadGroup(v);
    && group.Some?
    && var g := group.value;
       var chains := ReadChains(env, g.chains);
       && |g.chainHashes| == g.verifiedChainCount
       && |g.chainHashes| <= |g.receiptHashes|
       && |g.chains| == g.verifiedChainCount
       && chains.Some?
       && ChainsOk(env, g, chains.value)
       && AllReceiptHashes(chains.value) == ToSet(g.receiptHashes)
  }

  function GroupChains(env: Env, v: Json): seq<Chain> {
    var group := ReadGroup(v);
    if group.None? then [] else
    var chains := ReadChains(env, group.value.chains);
    if chains.None? then [] else chains.value
  }

  /** All chains of all groups, in order. */
  function EvidenceChains(env: Env, groups: seq<Json>): seq<Chain> {
    if groups == [] then []
    else EvidenceChains(env, groups[..|groups| - 1]) + GroupChains(env, groups[|groups| - 1])
  }

  predicate ViewCovered(chains: seq<Chain>, v: AcceptedView) {
    v.chainHash in ChainHashesOf(chains, v.stableId)
  }

  predicate TombstoneCovered(chains: seq<Chain>, t: Tombstone) {
    ToSet(t.receiptHashes) <= ReceiptHashesOf(chains, t.stableId)
  }

  predicate ViewOk(chains: seq<Chain>, v: Json) {
    ReadAcceptedView(v).Some? && ViewCovered(chains, ReadAcceptedView(v).value)
  }

  predicate TombstoneOk(chains: seq<Chain>, t: Json) {
    ReadTombstone(t).Some? && TombstoneCovered(chains, ReadTombstone(t).value)
  }

  predicate ListedEvidenceOk(env: Env, count: nat, views: seq<Json>, tombstones: seq<Json>, groups: seq<Json>) {
    var chains := EvidenceChains(env, groups);
    && |views| == count
    && groups != []
    && (forall g :: g in groups ==> GroupOk(env, g))
    && (forall v :: v in views ==> ViewOk(chains, v))
    && (forall t :: t in tombstones ==> TombstoneOk(chains, t))
  }

  predicate EvidenceOk(env: Env, proof: Object) {
    && ClosedProof(proof)
    && var count := RequiredU64(proof, ViewCount);
       && count.Some?
       && (count.value != 0 ==>
             var views, tombstones, groups :=
               proof[Views].items, proof[TombstoneReceipts].items, proof[ReceiptChains].items;
             ListedEvidenceOk(env, count.value, views, tombstones, groups))
  }

  // ---- the per-view sets ----

  type HashesByView = map<string, set<string>>

  function HashesFor(m: HashesByView, stableId: string): set<string> {
    if stableId in m then m[stableId] else {}
  }

  function Insert(m: HashesByView, stableId: string, hash: string): HashesByView {
    m[stableId := HashesFor(m, stableId) + {hash}]
  }

  function InsertAll(m: HashesByView, stableId: string, hashes: set<string>): HashesByView {
    if hashes == {} then m else m[stableId := HashesFor(m, stableId) + hashes]
  }

  /** The chain hashes the verifier has recorded after accepting `chains` in order. */
  function RecordChains(m: HashesByView, chains: seq<Chain>): HashesByView {
    if chains == [] then m else
    var c := chains[|chains| - 1];
    Insert(RecordChains(m, chains[..|chains| - 1]), c.stableId, c.chainHash)
  }

  function RecordReceipts(m: HashesByView, chains: seq<Chain>): HashesByView {
    if chains == [] then m else
    var c := chains[|chains| - 1];
    InsertAll(RecordReceipts(m, chains[..|chains| - 1]), c.stableId, HashSet(c.receipts))
  }

  lemma AppendReceipt(receipts: seq<Receipt>, i: nat)
    requires i < |receipts|
    ensures HashSet(receipts[..i + 1]) == HashSet(receipts[..i]) + {receipts[i].receiptHash}
  {
    var longer := receipts[..i + 1];
    assert longer == receipts[..i] + [receipts[i]];
    forall h | h in HashSet(receipts[..i]) + {receipts[i].receiptHash} ensures h in HashSet(longer) {
      assert longer[i] in longer;
    }
  }

  lemma InsertOne(m: HashesByView, id: string, hashes: set<string>, hash: string)
    ensures Insert(InsertAll(m, id, hashes), id, hash) == InsertAll(m, id, hashes + {hash})
  {
    assert HashesFor(m, id) + (hashes + {hash}) == (HashesFor(m, id) + hashes) + {hash};
    assert HashesFor(m, id) + ({} + {hash}) == HashesFor(m, id) + {hash};
    assert hash in hashes + {hash};
  }

  lemma AppendChain(chains: seq<Chain>, c: Chain, id: string)
    ensures ChainHashesOf(chains + [c], id)
         == ChainHashesOf(chains, id) + (if c.stableId == id then {c.chainHash} else {})
    ensures ReceiptHashesOf(chains + [c], id)
         == ReceiptHashesOf(chains, id) + (if c.stableId == id then HashSet(c.receipts) else {})
    ensures AllReceiptHashes(chains + [c]) == AllReceiptHashes(chains) + HashSet(c.receipts)
    ensures (set x | x in chains + [c] :: x.chainHash) == (set x | x in chains :: x.chainHash) + {c.chainHash}
  {
  }

  lemma RecordChain(m: HashesByView, chains: seq<Chain>, c: Chain)
    ensures RecordChains(m, chains + [c]) == Insert(RecordChains(m, chains), c.stableId, c.chainHash)
    ensures RecordReceipts(m, chains + [c])
         == InsertAll(RecordReceipts(m, chains), c.stableId, HashSet(c.receipts))
  {
    assert (chains + [c])[..|chains|] == chains;
  }

  lemma RecordAll(m: HashesByView, chains: seq<Chain>, more: seq<Chain>)
    ensures RecordChains(m, chains + more) == RecordChains(RecordChains(m, chains), more)
    ensures RecordReceipts(m, chains + more) == RecordReceipts(RecordReceipts(m, chains), more)
  {
    if more == [] {
      assert chains + more == chains;
    } else {
      var init := more[..|more| - 1];
      assert chains + more == (chains + init) + [more[|more| - 1]];
      RecordChain(m, chains + init, more[|more| - 1]);
      RecordAll(m, chains, init);
    }
  }

  lemma NoChains(id: string)
    ensures ChainHashesOf([], id) == {} && ReceiptHashesOf([], id) == {} && AllReceiptHashes([]) == {}
  {
  }

  lemma NoReceipts(receipts: seq<Receipt>, m: HashesByView, id: string)
    ensures HashSet(receipts[..0]) == {} && InsertAll(m, id, {}) == m
  {
  }

  lemma RecordedStep(m: HashesByView, c: Chain, id: string)
    ensures HashesFor(Insert(m, c.stableId, c.chainHash), id)
         == HashesFor(m, id) + (if c.stableId == id then {c.chainHash} else {})
    ensures HashesFor(InsertAll(m, c.stableId, HashSet(c.receipts)), id)
         == HashesFor(m, id) + (if c.stableId == id then HashSet(c.receipts) else {})
  {
    hide HashSet;
  }

  /** What the recorded sets hold for a view: exactly the hashes of its own chains. */
  lemma {:induction false} Recorded(m: HashesByView, chains: seq<Chain>, id: string)
    ensures HashesFor(RecordChains(m, chains), id) == HashesFor(m, id) + ChainHashesOf(chains, id)
    ensures HashesFor(RecordReceipts(m, chains), id) == HashesFor(m, id) + ReceiptHashesOf(chains, id)
  {
    hide ChainHashesOf, ReceiptHashesOf, HashSet, HashesFor, Insert, InsertAll;
    if chains == [] {
      NoChains(id);
    } else {
      hide RecordChains, RecordReceipts;
      var init, c := chains[..|chains| - 1], chains[|chains| - 1];
      assert chains == init + [c];
      AppendChain(init, c, id);
      Recorded(m, init, id);
      RecordChain(m, init, c);
      RecordedStep(RecordChains(m, init), c, id);
      RecordedStep(RecordReceipts(m, init), c, id);
    }
  }

  /** The checks on one receipt, given the version and hash carried over from the one before. */
  method CheckReceipt(env: Env, chain: Chain, i: nat, previousVersion: Option<nat>, previousHash: Option<string>)
    returns (ok: bool)
    requires i < |chain.receipts|
    requires i > 0 ==> previousVersion == Some(chain.receipts[i - 1].version)
    requires i > 0 ==> previousHash == Some(chain.receipts[i - 1].receiptHash)
    ensures var r := chain.receipts[i];
      ok <==> && r.stableId == chain.stableId && r.warehouse == chain.warehouse
              && r.namespace == chain.namespace && r.name == chain.name
              && ReceiptOk(env, chain.receipts, i)
  {
    hide ReceiptPreimage;
    var r := chain.receipts[i];
    if r.stableId != chain.stableId || r.warehouse != chain.warehouse
       || r.namespace != chain.namespace || r.name != chain.name {
      return false;
    }
    if i == 0 {
      if r.operation != "upsert" || r.version != 1 || r.previousVersion.Some? || r.previousHash.Some? {
        return false;
      }
    } else {
      if r.previousVersion != previousVersion || r.previousHash != previousHash {
        return false;
      }
      if !(r.operation == "upsert" && r.version == SaturatingSucc(previousVersion.value))
         && !(r.operation == "drop" && r.version == previousVersion.value) {
        return false;
      }
    }
    return r.receiptHash == env.digest(ReceiptPreimage(r));
  }

  class Verification {
    var verifiedChainHashes: HashesByView
    var chainReceiptHashes: HashesByView
    var structuralChainHashes: set<string>
    var structuralReceiptHashes: set<string>

    constructor ()
      ensures verifiedChainHashes == map[] && chainReceiptHashes == map[]
    {
      verifiedChainHashes, chainReceiptHashes := map[], map[];
      structuralChainHashes, structuralReceiptHashes := {}, {};
    }

    /** Walks one chain's receipts, carrying the previous version and hash. */
    method VerifyReceipts(env: Env, chain: Chain) returns (ok: bool)
      modifies this`chainReceiptHashes, this`structuralReceiptHashes
      ensures ok <==> ReceiptsOk(env, chain)
      ensures ok ==> structuralReceiptHashes == old(structuralReceiptHashes) + HashSet(chain.receipts)
      ensures ok ==> (chainReceiptHashes
                      == InsertAll(old(chainReceiptHashes), chain.stableId, HashSet(chain.receipts)))
    {
      NoReceipts(chain.receipts, chainReceiptHashes, chain.stableId);
      hide ReceiptOk, HashSet, HashesFor, InsertAll, Insert;
      var previousVersion: Option<nat>, previousHash: Option<string> := None, None;
      var latestOperation: Option<string>, latestVersion: Option<nat> := None, None;
      var receipts := chain.receipts;
      for i := 0 to |receipts|
        invariant forall j :: 0 <= j < i ==> ReceiptOk(env, receipts, j) && SameView(chain, receipts[j])
        invariant i == 0 ==> previousVersion == None && latestOperation == None
        invariant i > 0 ==> previousVersion == Some(receipts[i - 1].version)
        invariant i > 0 ==> previousHash == Some(receipts[i - 1].receiptHash)
        invariant i > 0 ==> latestOperation == Some(receipts[i - 1].operation)
        invariant latestVersion == previousVersion
        invariant structuralReceiptHashes == old(structuralReceiptHashes) + HashSet(receipts[..i])
        invariant chainReceiptHashes
               == InsertAll(old(chainReceiptHashes), chain.stableId, HashSet(receipts[..i]))
      {
        var r := receipts[i];
        var follows := CheckReceipt(env, chain, i, previousVersion, previousHash);
        if !follows {
          assert !History(env, receipts) || !SameView(chain, receipts[i]);
          return false;
        }
        AppendReceipt(receipts, i);
        InsertOne(old(chainReceiptHashes), chain.stableId, HashSet(receipts[..i]), r.receiptHash);
        chainReceiptHashes := Insert(chainReceiptHashes, chain.stableId, r.receiptHash);
        structuralReceiptHashes := structuralReceiptHashes + {r.receiptHash};
        latestOperation, latestVersion := Some(r.operation), Some(r.version);
        previousVersion, previousHash := Some(r.version), Some(r.receiptHash);
      }
      assert receipts[..|receipts|] == receipts;
      return latestVersion == Some(chain.latestVersion) && latestOperation == Some(chain.latestOperation);
    }

    method VerifyChain(env: Env, group: Group, chain: Chain) returns (ok: bool)
      modifies this
      ensures ok <==> ChainInGroupOk(env, group, chain) && chain.chainHash !in old(structuralChainHashes)
      ensures ok ==> structuralChainHashes == old(structuralChainHashes) + {chain.chainHash}
      ensures ok ==> structuralReceiptHashes == old(structuralReceiptHashes) + HashSet(chain.receipts)
      ensures ok ==> verifiedChainHashes == Insert(old(verifiedChainHashes), chain.stableId, chain.chainHash)
      ensures ok ==> (chainReceiptHashes
                      == InsertAll(old(chainReceiptHashes), chain.stableId, HashSet(chain.receipts)))
    {
      if chain.warehouse != group.warehouse || chain.namespace != group.namespace
         || chain.stableId != StableViewId(chain.warehouse, chain.namespace, chain.name)
         || chain.chainHash !in group.chainHashes {
        return false;
      }
      if chain.chainHash in structuralChainHashes {
        return false;
      }
      structuralChainHashes := structuralChainHashes + {chain.chainHash};
      verifiedChainHashes := Insert(verifiedChainHashes, chain.stableId, chain.chainHash);
      if !chain.chainVerified || chain.latestOperation !in ["upsert", "drop"]
         || chain.tombstoned != (chain.latestOperation == "drop")
         || |chain.receipts| != chain.receiptCount {
        return false;
      }
      ok := VerifyReceipts(env, chain);
      if ok {
        ok := chain.chainHash == env.digest(ChainPreimage(chain));
      }
    }

    /** Walks one chain group; the structural sets start empty for each group. */
    method VerifyGroup(env: Env, v: Json) returns (ok: bool)
      modifies this
      ensures ok <==> GroupOk(env, v)
      ensures ok ==> verifiedChainHashes == RecordChains(old(verifiedChainHashes), GroupChains(env, v))
      ensures ok ==> chainReceiptHashes == RecordReceipts(old(chainReceiptHashes), GroupChains(env, v))
    {
      hide ReadGroup, ReadChains, ChainsOk, RecordChains, RecordReceipts, AllReceiptHashes;
      var read := ReadGroup(v);
      if read.None? {
        return false;
      }
      var g := read.value;
      if |g.chainHashes| != g.verifiedChainCount || |g.receiptHashes| < |g.chainHashes|
         || |g.chains| != g.verifiedChainCount {
        return false;
      }
      ok := VerifyGroupChains(env, g);
      ok := ok && structuralReceiptHashes == ToSet(g.receiptHashes);
    }

    method VerifyGroupChains(env: Env, g: Group) returns (ok: bool)
      modifies this
      ensures ok <==> ReadChains(env, g.chains).Some? && ChainsOk(env, g, ReadChains(env, g.chains).value)
      ensures ok ==>
                && structuralReceiptHashes == AllReceiptHashes(ReadChains(env, g.chains).value)
                && verifiedChainHashes == RecordChains(old(verifiedChainHashes), ReadChains(env, g.chains).value)
                && chainReceiptHashes == RecordReceipts(old(chainReceiptHashes), ReadChains(env, g.chains).value)
    {
      NoChains("");
      hide ReceiptPreimage, ChainPreimage, ReadChain, ChainInGroupOk, AllReceiptHashes, HashesFor, Insert, InsertAll,
        HashSet;
      structuralChainHashes, structuralReceiptHashes := {}, {};
      ghost var chains: seq<Chain> := [];
      for i := 0 to |g.chains|
        invariant |chains| == i
        invariant forall j :: 0 <= j < i ==> ReadChain(env, g.chains[j]) == Some(chains[j])
        invariant ChainsOk(env, g, chains)
        invariant structuralChainHashes == set c | c in chains :: c.chainHash
        invariant structuralReceiptHashes == AllReceiptHashes(chains)
        invariant verifiedChainHashes == RecordChains(old(verifiedChainHashes), chains)
        invariant chainReceiptHashes == RecordReceipts(old(chainReceiptHashes), chains)
      {
        var chain := ReadChain(env, g.chains[i]);
        if chain.None? {
          return false;
        }
        ok := VerifyChain(env, g, chain.value);
        if !ok {
          RejectedChain(env, g, chains, chain.value);
          return;
        }
        AppendChain(chains, chain.value, "");
        RecordChain(old(verifiedChainHashes), chains, chain.value);
        RecordChain(old(chainReceiptHashes), chains, chain.value);
        ExtendChains(env, g, chains, chain.value);
        hide ChainsOk, RecordChains, RecordReceipts;
        chains := chains + [chain.value];
      }
      assert ReadChains(env, g.chains).value == chains;
      return true;
    }
  }

  lemma ExtendChains(env: Env, g: Group, chains: seq<Chain>, c: Chain)
    requires ChainsOk(env, g, chains) && ChainInGroupOk(env, g, c) && c.chainHash !in set x | x in chains :: x.chainHash
    ensures ChainsOk(env, g, chains + [c])
  {
    hide ChainInGroupOk;
  }

  lemma RejectedChain(env: Env, g: Group, chains: seq<Chain>, c: Chain)
    requires |chains| < |g.chains|
    requires forall j :: 0 <= j < |chains| ==> ReadChain(env, g.chains[j]) == Some(chains[j])
    requires ReadChain(env, g.chains[|chains|]) == Some(c)
    requires !ChainInGroupOk(env, g, c) || c.chainHash in set x | x in chains :: x.chainHash
    ensures var all := ReadChains(env, g.chains); all.Some? ==> !ChainsOk(env, g, all.value)
  {
    hide ReadChain, ChainInGroupOk;
    var all := ReadChains(env, g.chains);
    if all.Some? {
      assert all.value[|chains|] == c;
      assert forall j :: 0 <= j < |chains| ==> all.value[j] == chains[j];
      if ChainInGroupOk(env, g, c) {
        var x :| x in chains && x.chainHash == c.chainHash;
        var j :| 0 <= j < |chains| && chains[j] == x;
        assert all.value[j].chainHash == all.value[|chains|].chainHash;
      }
    }
  }

  function RecordTombstones(tombstones: seq<Tombstone>): HashesByView {
    if tombstones == [] then map[] else
    var t := tombstones[|tombstones| - 1];
    InsertAll(RecordTombstones(tombstones[..|tombstones| - 1]), t.stableId, ToSet(t.receiptHashes))
  }

  /** Checking the collected sets view by view is checking every tombstone record. */
  lemma {:induction false} TombstoneCoverage(chains: seq<Chain>, ts: seq<Tombstone>)
    ensures AllCovered(chains, RecordTombstones(ts)) <==> (forall t :: t in ts ==> TombstoneCovered(chains, t))
  {
    hide ReceiptHashesOf, ToSet, InsertAll;
    if ts != [] {
      var init, t := ts[..|ts| - 1], ts[|ts| - 1];
      assert ts == init + [t];
      TombstoneCoverage(chains, init);
      AddedTombstone(chains, RecordTombstones(init), t.stableId, ToSet(t.receiptHashes));
      hide AllCovered;
      assert forall x :: x in ts <==> x in init || x == t;
      assert AllCovered(chains, RecordTombstones(ts))
        <==> AllCovered(chains, RecordTombstones(init)) && TombstoneCovered(chains, t);
    }
  }

  predicate AllCovered(chains: seq<Chain>, m: HashesByView) {
    forall id :: id in m ==> m[id] <= ReceiptHashesOf(chains, id)
  }

  lemma AddedTombstone(chains: seq<Chain>, m: HashesByView, id: string, hashes: set<string>)
    ensures AllCovered(chains, InsertAll(m, id, hashes))
       <==> AllCovered(chains, m) && hashes <= ReceiptHashesOf(chains, id)
  {
    hide ReceiptHashesOf;
    var after := InsertAll(m, id, hashes);
    assert forall x :: x in m ==> x in after && m[x] <= after[x];
    assert hashes != {} ==> id in after && hashes <= after[id];
    assert forall x :: x in after && x != id ==> x in m && after[x] == m[x];
  }

  method ReadViews(views: seq<Json>) returns (accepted: Option<seq<AcceptedView>>)
    ensures accepted.None? ==> exists v :: v in views && ReadAcceptedView(v).None?
    ensures accepted.Some? ==> |accepted.value| == |views|
    ensures accepted.Some? ==> forall j :: 0 <= j < |views| ==> ReadAcceptedView(views[j]) == Some(accepted.value[j])
  {
    hide ReadAcceptedView;
    var read: seq<AcceptedView> := [];
    for i := 0 to |views|
      invariant |read| == i
      invariant forall j :: 0 <= j < i ==> ReadAcceptedView(views[j]) == Some(read[j])
    {
      var v := ReadAcceptedView(views[i]);
      if v.None? {
        return None;
      }
      read := read + [v.value];
    }
    return Some(read);
  }

  /** Collects the tombstone receipt hashes by view. */
  method ReadTombstones(tombstones: seq<Json>) returns (hashes: Option<HashesByView>, ghost read: seq<Tombstone>)
    ensures hashes.None? ==> exists t :: t in tombstones && ReadTombstone(t).None?
    ensures hashes.Some? ==> |read| == |tombstones| && hashes.value == RecordTombstones(read)
    ensures hashes.Some? ==> forall j :: 0 <= j < |read| ==> ReadTombstone(tombstones[j]) == Some(read[j])
  {
    hide ReadTombstone, InsertAll, ToSet;
    read := [];
    var m: HashesByView := map[];
    for i := 0 to |tombstones|
      invariant |read| == i
      invariant forall j :: 0 <= j < i ==> ReadTombstone(tombstones[j]) == Some(read[j])
      invariant m == RecordTombstones(read)
    {
      var t := ReadTombstone(tombstones[i]);
      if t.None? {
        return None, [];
      }
      m := InsertAll(m, t.value.stableId, ToSet(t.value.receiptHashes));
      assert (read + [t.value])[..i] == read;
      read := read + [t.value];
    }
    return Some(m), read;
  }

  method VerifyGroups(env: Env, groups: seq<Json>) returns (ok: bool, state: Verification)
    ensures ok <==> forall g :: g in groups ==> GroupOk(env, g)
    ensures ok ==> forall id ::
                     && HashesFor(state.verifiedChainHashes, id) == ChainHashesOf(EvidenceChains(env, groups), id)
                     && HashesFor(state.chainReceiptHashes, id) == ReceiptHashesOf(EvidenceChains(env, groups), id)
  {
    hide GroupOk, GroupChains, Insert, InsertAll, HashSet, ChainHashesOf, ReceiptHashesOf;
    state := new Verification();
    assert groups[..0] == [];
    for i := 0 to |groups|
      invariant forall j :: 0 <= j < i ==> GroupOk(env, groups[j])
      invariant state.verifiedChainHashes == RecordChains(map[], EvidenceChains(env, groups[..i]))
      invariant state.chainReceiptHashes == RecordReceipts(map[], EvidenceChains(env, groups[..i]))
    {
      var groupOk := state.VerifyGroup(env, groups[i]);
      if !groupOk {
        assert groups[i] in groups;
        return false, state;
      }
      assert groups[..i + 1][..i] == groups[..i];
      RecordAll(map[], EvidenceChains(env, groups[..i]), GroupChains(env, groups[i]));
    }
    assert groups[..|groups|] == groups;
    forall id {
      Recorded(map[], EvidenceChains(env, groups), id);
    }
    return true, state;
  }

  method CoversViews(ghost chains: seq<Chain>, accepted: seq<AcceptedView>, verifiedChainHashes: HashesByView)
    returns (ok: bool)
    requires forall id :: HashesFor(verifiedChainHashes, id) == ChainHashesOf(chains, id)
    ensures ok <==> forall j :: 0 <= j < |accepted| ==> ViewCovered(chains, accepted[j])
  {
    hide ChainHashesOf;
    for i := 0 to |accepted|
      invariant forall j :: 0 <= j < i ==> ViewCovered(chains, accepted[j])
    {
      if accepted[i].chainHash !in HashesFor(verifiedChainHashes, accepted[i].stableId) {
        return false;
      }
    }
    return true;
  }

  method CoversTombstones(ghost chains: seq<Chain>, tombstoneHashes: HashesByView, chainReceiptHashes: HashesByView)
    returns (ok: bool)
    requires forall id :: HashesFor(chainReceiptHashes, id) == ReceiptHashesOf(chains, id)
    ensures ok <==> AllCovered(chains, tombstoneHashes)
  {
    hide ReceiptHashesOf;
    var ids := tombstoneHashes.Keys;
    while ids != {}
      invariant ids <= tombstoneHashes.Keys
      invariant forall id :: id in tombstoneHashes && id !in ids ==>
                               tombstoneHashes[id] <= ReceiptHashesOf(chains, id)
      decreases ids
    {
      var id :| id in ids;
      if !(tombstoneHashes[id] <= HashesFor(chainReceiptHashes, id)) {
        return false;
      }
      ids := ids - {id};
    }
    return true;
  }

  method RequireListedEvidence(env: Env, count: nat, views: seq<Json>, tombstones: seq<Json>, groups: seq<Json>)
    returns (ok: bool)
    ensures ok <==> ListedEvidenceOk(env, count, views, tombstones, groups)
  {
    hide ReadAcceptedView, ReadTombstone, GroupOk, EvidenceChains, ViewCovered, TombstoneCovered, HashesFor;
    hide ChainHashesOf, ReceiptHashesOf, RecordTombstones, AllCovered;
    if |views| != count {
      return false;
    }
    ghost var chains := EvidenceChains(env, groups);
    var accepted := ReadViews(views);
    if accepted.None? {
      var v :| v in views && ReadAcceptedView(v).None?;
      assert !ViewOk(chains, v);
      return false;
    }
    var tombstoneHashes, dropped := ReadTombstones(tombstones);
    if tombstoneHashes.None? {
      var t :| t in tombstones && ReadTombstone(t).None?;
      assert !TombstoneOk(chains, t);
      return false;
    }
    if groups == [] {
      return false;
    }
    var groupsOk, state := VerifyGroups(env, groups);
    if !groupsOk {
      return false;
    }
    var viewsCovered := CoversViews(chains, accepted.value, state.verifiedChainHashes);
    if !viewsCovered {
      ghost var j :| 0 <= j < |accepted.value| && !ViewCovered(chains, accepted.value[j]);
      assert !ViewOk(chains, views[j]);
      return false;
    }
    ok := CoversTombstones(chains, tombstoneHashes.value, state.chainReceiptHashes);
    TombstoneCoverage(chains, dropped);
    assert forall j :: 0 <= j < |dropped| ==> tombstones[j] in tombstones && dropped[j] in dropped;
    assert forall j :: 0 <= j < |views| ==> ViewOk(chains, views[j]);
  }

  /** The whole check of the view-receipt evidence. */
  method RequireViewReceiptChainEvidence(env: Env, proof: Object) returns (ok: bool)
    ensures ok <==> EvidenceOk(env, proof)
  {
    hide Closed, ClosedGroup, ListedEvidenceOk;
    if !ClosedProof(proof) {
      return false;
    }
    var count := RequiredU64(proof, ViewCount);
    if count.None? {
      return false;
    }
    if count.value == 0 {
      return true;
    }
    ok := RequireListedEvidence(env, count.value, proof[Views].items, proof[TombstoneReceipts].items,
                                proof[ReceiptChains].items);
  }
}
