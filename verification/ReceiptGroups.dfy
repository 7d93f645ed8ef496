/** Whole chain groups as the producer writes them, and what an accepted view is worth. */
module ReceiptGroups {
  import opened Json
  import opened Collections
  import opened ReceiptSchema
  import opened ReceiptVerifier
  import opened ReceiptHistory
  import opened ReceiptProducer

  /** A drained event, as far as views are concerned. */
  datatype Event = Event(
    eventType: string, stableId: Option<string>, warehouse: Option<string>, namespace: seq<string>,
    name: Option<string>, version: Option<nat>, expectedVersion: Option<nat>, graphEvents: nat,
    receiptHashes: seq<string>, chainHashes: seq<string>, chains: seq<ChainResponse>,
    replayHashes: seq<string>, lineageHashes: seq<string>)

  const LIFE_EVENTS := {"view.upserted", "view.loaded", "view.dropped"}

  predicate Concerns(e: Event, types: set<string>, id: string) {
    e.eventType in types && e.stableId == Some(id)
  }

  /** The first event of one of the given types that concerns the view. */
  function FindEvent(events: seq<Event>, types: set<string>, id: string): (r: Option<Event>)
    ensures r.Some? ==> exists i :: 0 <= i < |events| && events[i] == r.value && Concerns(r.value, types, id)
                                    && forall j :: 0 <= j < i ==> !Concerns(events[j], types, id)
    ensures r.None? ==> forall e :: e in events ==> !Concerns(e, types, id)
  {
    if events == [] then None
    else if Concerns(events[0], types, id) then Some(events[0])
    else FindEvent(events[1..], types, id)
  }

  predicate InScope(e: Event, events: seq<Event>, id: string) {
    var life := FindEvent(events, LIFE_EVENTS, id);
    life.Some? && life.value.warehouse == e.warehouse && life.value.namespace == e.namespace
  }

  /** The accepted chain hashes of the verified views in the group's scope. */
  function AcceptedInScope(e: Event, events: seq<Event>, b: Bootstrap): set<string> {
    set id | id in b.verifiedViews && id in b.chainHashes && InScope(e, events, id) :: b.chainHashes[id]
  }

  function ProducedChains(e: Event, b: Bootstrap): seq<Json> {
    Produced(e.chains, b, |b.verifiedViews|)
  }

  /** The chain hashes a group declares. */
  function DeclaredHashes(e: Event, events: seq<Event>, b: Bootstrap): set<string> {
    ToSet(e.chainHashes) + AcceptedInScope(e, events, b) + KnownHashes(ProducedChains(e, b))
  }

  /** Gathers the declared chain hashes and the chains of one group. */
  method GatherGroup(e: Event, events: seq<Event>, b: Bootstrap)
    returns (chainHashes: set<string>, chains: seq<Json>)
    ensures chainHashes == DeclaredHashes(e, events, b) && chains == ProducedChains(e, b)
  {
    hide InScope, HashOf, Produced;
    chainHashes := set h | h in e.chainHashes;
    for i := 0 to |b.verifiedViews|
      invariant chainHashes == ToSet(e.chainHashes) + (set id | id in b.verifiedViews[..i] && id in b.chainHashes
                                                            && InScope(e, events, id) :: b.chainHashes[id])
    {
      var id := b.verifiedViews[i];
      if id in b.chainHashes && InScope(e, events, id) {
        chainHashes := chainHashes + {b.chainHashes[id]};
      }
    }
    chains := CompactViewReceiptChains(e.chains, b);
    ghost var before := chainHashes;
    for i := 0 to |chains|
      invariant chainHashes == before + KnownHashes(chains[..i])
    {
      assert chains[..i + 1] == chains[..i] + [chains[i]];
      var hash := HashOf(chains[i]);
      if hash.Some? {
        chainHashes := chainHashes + {hash.value};
      }
    }
    assert chains[..|chains|] == chains;
    assert before == ToSet(e.chainHashes) + AcceptedInScope(e, events, b);
  }

  /** The group as it is written, with its chain hashes in some order. */
  function GroupJson(e: Event, chainHashes: seq<string>, chains: seq<Json>): Json {
    Obj(map[Warehouse := (if e.warehouse.Some? then Str(e.warehouse.value) else Null),
            Namespace := StrArr(e.namespace), ReceiptHashes := StrArr(e.receiptHashes),
            ChainHashes := StrArr(chainHashes), VerifiedChainCount := Num(|chains|), Chains := Arr(chains),
            ReplayEventHashes := StrArr(e.replayHashes), OpenLineageHashes := StrArr(e.lineageHashes)])
  }

  // ---- when the group is accepted ----

  predicate ProperHashes(hashes: seq<string>) {
    hashes != [] && (forall h :: h in hashes ==> IsFullHash(h)) && DuplicateFree(hashes)
  }

  predicate ProperHeader(e: Event, chainHashes: seq<string>) {
    && e.warehouse.Some? && e.warehouse.value != "" && e.namespace != [] && "" !in e.namespace
    && ProperHashes(e.receiptHashes) && ProperHashes(chainHashes)
    && ProperHashes(e.replayHashes) && ProperHashes(e.lineageHashes)
  }

  lemma HashArrayRead(o: Object, k: Key, hashes: seq<string>)
    requires Get(o, k) == Some(StrArr(hashes))
    ensures FullHashArray(o, k) == if ProperHashes(hashes) then Some(hashes) else None
  {
    StrArrStrings(hashes);
    hide IsFullHash, Strings;
  }

  lemma GroupMembers(e: Event, chainHashes: seq<string>, chains: seq<Json>)
    ensures GroupJson(e, chainHashes, chains).Obj?
    ensures var o := GroupJson(e, chainHashes, chains).members;
      && Get(o, Warehouse) == Some(if e.warehouse.Some? then Str(e.warehouse.value) else Null)
      && Get(o, Namespace) == Some(StrArr(e.namespace)) && Get(o, ReceiptHashes) == Some(StrArr(e.receiptHashes))
      && Get(o, ChainHashes) == Some(StrArr(chainHashes)) && Get(o, VerifiedChainCount) == Some(Num(|chains|))
      && Get(o, Chains) == Some(Arr(chains)) && Get(o, ReplayEventHashes) == Some(StrArr(e.replayHashes))
      && Get(o, OpenLineageHashes) == Some(StrArr(e.lineageHashes))
  {
    hide StrArr;
  }

  lemma GroupRead(e: Event, chainHashes: seq<string>, chains: seq<Json>)
    ensures ReadGroup(GroupJson(e, chainHashes, chains))
         == if ProperHeader(e, chainHashes) && 0 < |chains| < U64_LIMIT
            then Some(Group(e.warehouse.value, e.namespace, |chains|, e.receiptHashes, chainHashes, chains)) else None
  {
    GroupMembers(e, chainHashes, chains);
    hide GroupJson;
    var o := GroupJson(e, chainHashes, chains).members;
    ComponentsRead(o, e.namespace);
    HashArrayRead(o, ReceiptHashes, e.receiptHashes);
    HashArrayRead(o, ChainHashes, chainHashes);
    HashArrayRead(o, ReplayEventHashes, e.replayHashes);
    HashArrayRead(o, OpenLineageHashes, e.lineageHashes);
    assert NonEmptyStr(o, Warehouse) == if e.warehouse == Some("") then None else e.warehouse;
    assert PositiveU64(o, VerifiedChainCount) == if 0 < |chains| < U64_LIMIT then Some(|chains|) else None;
    assert RequiredArr(o, Chains) == Some(chains);
    hide StrArr, ProperHashes, FullHashArray, Components, NonEmptyStr, PositiveU64, RequiredArr, Get;
  }

  lemma ReadHash(env: Env, v: Json, c: Chain)
    requires ReadChain(env, v) == Some(c)
    ensures HashOf(v) == Some(c.chainHash)
  {
    hide ReadReceipts, Components, IsFullHash;
  }

  lemma KnownAreRead(env: Env, items: seq<Json>)
    requires ReadChains(env, items).Some?
    ensures KnownHashes(items) == ToSet(HashList(ReadChains(env, items).value))
  {
    hide ReadChain, HashOf;
    var chains := ReadChains(env, items).value;
    forall i | 0 <= i < |items| ensures HashOf(items[i]) == Some(chains[i].chainHash) {
      ReadHash(env, items[i], chains[i]);
    }
    var hashes := HashList(chains);
    forall h ensures h in KnownHashes(items) <==> h in hashes {
      if h in hashes {
        var i :| 0 <= i < |hashes| && hashes[i] == h;
        assert items[i] in items;
      }
      if h in KnownHashes(items) {
        var v :| v in items && HashOf(v) == Some(h);
        var i :| 0 <= i < |items| && items[i] == v;
        assert hashes[i] == h;
      }
    }
  }

  /** The produced chains are all valid, in the group's scope, and different. */
  predicate GoodChains(env: Env, e: Event, items: seq<Json>) {
    && ReadChains(env, items).Some?
    && var chains := ReadChains(env, items).value;
       && (forall i :: 0 <= i < |chains| ==>
             ChainOk(env, chains[i]) && Some(chains[i].warehouse) == e.warehouse && chains[i].namespace == e.namespace)
       && DistinctChainHashes(chains)
  }

  /** Some chain carries the hash. */
  predicate Carried(chains: seq<Json>, hash: string) {
    exists c :: c in chains && Member(c, ChainHash) == Some(Str(hash))
  }

  /** The first event of the view's life lies in the group's namespace. */
  predicate LivesIn(e: Event, events: seq<Event>, id: string) {
    exists i :: 0 <= i < |events| && events[i].warehouse == e.warehouse && events[i].namespace == e.namespace
      && Concerns(events[i], {"view.upserted", "view.loaded", "view.dropped"}, id)
      && forall j :: 0 <= j < i ==> !Concerns(events[j], {"view.upserted", "view.loaded", "view.dropped"}, id)
  }

  /** No chain hash is declared for which no chain was produced: neither one that was listed, nor the accepted one
      of a verified view that lives in the group's namespace. */
  predicate NoStrayHash(e: Event, events: seq<Event>, b: Bootstrap) {
    var chains := ProducedChains(e, b);
    && (forall h :: h in e.chainHashes ==> Carried(chains, h))
    && (forall id :: id in b.verifiedViews && id in b.chainHashes && LivesIn(e, events, id) ==>
          Carried(chains, b.chainHashes[id]))
  }

  lemma ScopeIsLife(e: Event, events: seq<Event>, id: string)
    ensures InScope(e, events, id) <==> LivesIn(e, events, id)
  {
    var life := FindEvent(events, LIFE_EVENTS, id);
    if LivesIn(e, events, id) {
      var i :| 0 <= i < |events| && events[i].warehouse == e.warehouse && events[i].namespace == e.namespace
        && Concerns(events[i], LIFE_EVENTS, id) && forall j :: 0 <= j < i ==> !Concerns(events[j], LIFE_EVENTS, id);
      assert events[i] in events;
      hide Concerns;
      assert life == Some(events[i]);
    }
  }

  lemma CarriedIsKnown(chains: seq<Json>, hash: string)
    ensures Carried(chains, hash) <==> hash in KnownHashes(chains)
  {
  }

  lemma NoStrayAsSets(e: Event, events: seq<Event>, b: Bootstrap)
    ensures NoStrayHash(e, events, b) <==>
              ToSet(e.chainHashes) + AcceptedInScope(e, events, b) <= KnownHashes(ProducedChains(e, b))
  {
    hide Carried, KnownHashes, InScope, LivesIn, ProducedChains;
    forall id {
      ScopeIsLife(e, events, id);
    }
    forall h {
      CarriedIsKnown(ProducedChains(e, b), h);
    }
  }

  /** A produced group is accepted exactly when its header is proper, its chains are valid, in scope and
      different, its receipt hashes are theirs, and no listed or accepted chain hash strays: the declared
      hashes are a set that may hold more than the chains do, while the count is that of the chains. */
  lemma ProducedGroupExact(env: Env, e: Event, events: seq<Event>, b: Bootstrap, chainHashes: seq<string>)
    requires DuplicateFree(chainHashes) && ToSet(chainHashes) == DeclaredHashes(e, events, b)
    ensures var chains := ProducedChains(e, b);
      GroupOk(env, GroupJson(e, chainHashes, chains)) <==>
        && ProperHeader(e, chainHashes) && 0 < |chains| < U64_LIMIT
        && GoodChains(env, e, chains) && NoStrayHash(e, events, b)
        && |chains| <= |e.receiptHashes|
        && AllReceiptHashes(ReadChains(env, chains).value) == ToSet(e.receiptHashes)
  {
    assert ProperHeader(e, chainHashes) ==> e.warehouse.Some?;
    hide GroupJson, ReadGroup, ProperHeader, ChainOk, ReadChain, AllReceiptHashes, AcceptedInScope, Produced,
      KnownHashes;
    var items := ProducedChains(e, b);
    GroupRead(e, chainHashes, items);
    if ProperHeader(e, chainHashes) && 0 < |items| < U64_LIMIT && ReadChains(env, items).Some? {
      var chains := ReadChains(env, items).value;
      var g := Group(e.warehouse.value, e.namespace, |items|, e.receiptHashes, chainHashes, items);
      KnownAreRead(env, items);
      ScopeOfGroup(env, e, g, chains);
      hide ReadChains, ChainsOk, ToSet, HashList;
      if DistinctChainHashes(chains) {
        StraysByCounting(chains, chainHashes);
      }
      hide DistinctChainHashes;
      NoStrayAsSets(e, events, b);
      hide NoStrayHash;
      assert NoStrayHash(e, events, b) <==> ToSet(chainHashes) <= ToSet(HashList(chains));
    }
  }

  lemma ScopeOfGroup(env: Env, e: Event, g: Group, chains: seq<Chain>)
    requires e.warehouse == Some(g.warehouse) && e.namespace == g.namespace
    ensures ChainsOk(env, g, chains) <==>
              && (forall i :: 0 <= i < |chains| ==> ChainOk(env, chains[i]) && Some(chains[i].warehouse) == e.warehouse
                                                    && chains[i].namespace == e.namespace)
              && DistinctChainHashes(chains) && ToSet(HashList(chains)) <= ToSet(g.chainHashes)
  {
    hide ChainOk;
    var hashes := HashList(chains);
    if ToSet(hashes) <= ToSet(g.chainHashes) {
      forall i | 0 <= i < |chains| ensures chains[i].chainHash in g.chainHashes {
        assert hashes[i] in ToSet(hashes);
      }
    }
    if ChainsOk(env, g, chains) {
      forall h | h in hashes ensures h in g.chainHashes {
        var i :| 0 <= i < |hashes| && hashes[i] == h;
        assert ChainInGroupOk(env, g, chains[i]);
      }
    }
  }

  /** With different chains and covered hashes, equal numbers mean that nothing strays. */
  lemma StraysByCounting(chains: seq<Chain>, chainHashes: seq<string>)
    requires DuplicateFree(chainHashes) && DistinctChainHashes(chains)
    requires ToSet(HashList(chains)) <= ToSet(chainHashes)
    ensures |chainHashes| == |chains| <==> ToSet(chainHashes) <= ToSet(HashList(chains))
  {
    var hashes := HashList(chains);
    assert DuplicateFree(hashes);
    DistinctSize(hashes);
    DistinctSize(chainHashes);
    if |chainHashes| == |chains| {
      Pigeonhole(hashes, ToSet(chainHashes));
    }
    if ToSet(chainHashes) <= ToSet(hashes) {
      assert ToSet(chainHashes) == ToSet(hashes);
    }
  }

  /** An accepted hash can stray only where the producer could not cut a chain for its view. */
  lemma StrayHasNoCut(e: Event, b: Bootstrap, id: string)
    requires id in b.verifiedViews && id in b.chainHashes
    ensures b.chainHashes[id] in KnownHashes(ProducedChains(e, b)) || CutFor(e.chains, b, id).None?
  {
    hide KnownHashes, Produced, CutFor;
    var k :| 0 <= k < |b.verifiedViews| && b.verifiedViews[k] == id;
    if CutFor(e.chains, b, id).Some? {
      AcceptedHashesAreListed(e.chains, b, |b.verifiedViews|, k);
    }
  }
}
