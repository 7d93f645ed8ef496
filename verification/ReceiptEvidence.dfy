/** The whole replay evidence about views, as the producer writes it from the drained events, and exactly when
    the verifier's three checks accept it. */
module ReceiptEvidence {
  import opened Json
  import opened Collections
  import opened ReceiptSchema
  import opened ReceiptVerifier
  import opened ReceiptHistory
  import opened ReceiptProducer
  import opened ReceiptGroups
  import opened AcceptedViews

  const RECEIPTS_LISTED := "view.version-receipts-listed"
  const CHAINS_LISTED := "view.version-receipt-chains-listed"

  // ---- what is written ----

  function OptStr(s: Option<string>): Json {
    if s.Some? then Str(s.value) else Null
  }

  function OptNum(n: Option<nat>): Json {
    if n.Some? then Num(n.value) else Null
  }

  /** The record of a verified view, made from the first event of its life. */
  function ViewRecord(e: Event, b: Bootstrap, id: string): Json {
    Obj(map[StableId := Str(id), Warehouse := OptStr(e.warehouse), Namespace := StrArr(e.namespace),
            Name := OptStr(e.name), ViewVersion := OptNum(e.version),
            AcceptedViewVersion := OptNum(Lookup(b.versions, id)),
            AcceptedReceiptHash := OptStr(Lookup(b.receiptHashes, id)),
            AcceptedReceiptChainHash := OptStr(Lookup(b.chainHashes, id)), EventType := Str(e.eventType),
            ExpectedViewVersion := OptNum(e.expectedVersion), GraphEvents := Num(e.graphEvents),
            ReplayEventHashes := StrArr(e.replayHashes), OpenLineageHashes := StrArr(e.lineageHashes)])
  }

  function ViewRecords(events: seq<Event>, b: Bootstrap): (r: Option<seq<Json>>)
    ensures r.Some? ==> |r.value| == |b.verifiedViews|
    ensures r.Some? ==> forall i :: 0 <= i < |r.value| ==>
              var id := b.verifiedViews[i];
              var life := FindEvent(events, LIFE_EVENTS, id);
              life.Some? && r.value[i] == ViewRecord(life.value, b, id)
    ensures r.None? ==>
              exists i :: 0 <= i < |b.verifiedViews| && FindEvent(events, LIFE_EVENTS, b.verifiedViews[i]).None?
  {
    if forall i :: 0 <= i < |b.verifiedViews| ==> FindEvent(events, LIFE_EVENTS, b.verifiedViews[i]).Some?
    then Some(seq(|b.verifiedViews|, i requires 0 <= i < |b.verifiedViews|
                                             && FindEvent(events, LIFE_EVENTS, b.verifiedViews[i]).Some? =>
      ViewRecord(FindEvent(events, LIFE_EVENTS, b.verifiedViews[i]).value, b, b.verifiedViews[i])))
    else None
  }

  /** The version the view was expected to have when it was first dropped. */
  function ExpectedAtDrop(events: seq<Event>, id: Option<string>): Option<nat> {
    var stableId :- id;
    var dropped :- FindEvent(events, {"view.dropped"}, stableId);
    dropped.expectedVersion
  }

  function TombstoneRecord(events: seq<Event>, e: Event): Json {
    Obj(map[StableId := OptStr(e.stableId), Warehouse := OptStr(e.warehouse), Namespace := StrArr(e.namespace),
            Name := OptStr(e.name), ExpectedViewVersion := OptNum(ExpectedAtDrop(events, e.stableId)),
            ReceiptHashes := StrArr(e.receiptHashes), ReplayEventHashes := StrArr(e.replayHashes),
            OpenLineageHashes := StrArr(e.lineageHashes)])
  }

  /** A group's chain hashes are a set, written in an order of the producer's. */
  function GroupRecord(events: seq<Event>, b: Bootstrap, order: set<string> -> seq<string>, e: Event): Json {
    GroupJson(e, order(DeclaredHashes(e, events, b)), ProducedChains(e, b))
  }

  ghost predicate Lists(order: set<string> -> seq<string>) {
    forall s :: DuplicateFree(order(s)) && ToSet(order(s)) == s
  }

  /** The records of the events of one type, in their order. */
  function Records(events: seq<Event>, eventType: string, record: Event -> Json): (r: seq<Json>)
    ensures forall x :: x in r <==> exists e :: e in events && e.eventType == eventType && record(e) == x
  {
    if events == [] then []
    else
      var last := events[|events| - 1];
      assert events == events[..|events| - 1] + [last];
      Records(events[..|events| - 1], eventType, record) + (if last.eventType == eventType then [record(last)] else [])
  }

  function ProofObject(count: nat, views: seq<Json>, tombstones: seq<Json>, groups: seq<Json>): Object {
    map[ViewCount := Num(count), Views := Arr(views), TombstoneReceipts := Arr(tombstones),
        ReceiptChains := Arr(groups)]
  }

  /** The evidence; none when a verified view has no event. */
  function ReplayEvidence(events: seq<Event>, b: Bootstrap, order: set<string> -> seq<string>): Option<Object> {
    if b.verifiedViews == [] then Some(ProofObject(0, [], [], [])) else
    var views :- ViewRecords(events, b);
    Some(ProofObject(b.viewCount, views, Records(events, RECEIPTS_LISTED, (e: Event) => TombstoneRecord(events, e)),
                     Records(events, CHAINS_LISTED, (e: Event) => GroupRecord(events, b, order, e))))
  }

  method ViewReplayEvidence(events: seq<Event>, b: Bootstrap, order: set<string> -> seq<string>)
    returns (proof: Option<Object>)
    ensures proof == ReplayEvidence(events, b, order)
  {
    hide DeclaredHashes, ViewRecord, TombstoneRecord, GroupJson, FindEvent, ProducedChains;
    if b.verifiedViews == [] {
      return Some(ProofObject(0, [], [], []));
    }
    var views := [];
    for i := 0 to |b.verifiedViews|
      invariant |views| == i
      invariant forall j :: 0 <= j < i ==>
                  var life := FindEvent(events, LIFE_EVENTS, b.verifiedViews[j]);
                  life.Some? && views[j] == ViewRecord(life.value, b, b.verifiedViews[j])
    {
      var life := FindEvent(events, LIFE_EVENTS, b.verifiedViews[i]);
      if life.None? {
        return None;
      }
      views := views + [ViewRecord(life.value, b, b.verifiedViews[i])];
    }
    var tombstones, groups := [], [];
    ghost var tombstone := (e: Event) => TombstoneRecord(events, e);
    ghost var group := (e: Event) => GroupRecord(events, b, order, e);
    assert events[..0] == [];
    for i := 0 to |events|
      invariant tombstones == Records(events[..i], RECEIPTS_LISTED, tombstone)
      invariant groups == Records(events[..i], CHAINS_LISTED, group)
    {
      assert events[..i + 1][..i] == events[..i];
      if events[i].eventType == RECEIPTS_LISTED {
        tombstones := tombstones + [TombstoneRecord(events, events[i])];
      }
      if events[i].eventType == CHAINS_LISTED {
        var chainHashes, chains := GatherGroup(events[i], events, b);
        groups := groups + [GroupJson(events[i], order(chainHashes), chains)];
      }
    }
    assert events[..|events|] == events;
    assert ViewRecords(events, b).Some? && ViewRecords(events, b).value == views;
    proof := Some(ProofObject(b.viewCount, views, tombstones, groups));
  }

  // ---- what the verifier reads back ----

  lemma OptStrRead(o: Object, k: Key, s: Option<string>)
    requires Get(o, k) == Some(OptStr(s))
    ensures RequiredStr(o, k) == s
    ensures NonEmptyStr(o, k) == (if s == Some("") then None else s)
    ensures FullHashStr(o, k) == (if s.Some? && IsFullHash(s.value) then s else None)
  {
    assert !IsFullHash("");
    hide IsFullHash;
  }

  lemma OptNumRead(o: Object, k: Key, n: Option<nat>)
    requires Get(o, k) == Some(OptNum(n))
    ensures RequiredU64(o, k) == if n.Some? && n.value < U64_LIMIT then n else None
  {
  }

  /** The event places the view, and its stable id is the one of that place. */
  predicate Placed(e: Event, id: string) {
    && e.warehouse.Some? && e.namespace != [] && "" !in e.namespace && e.name.Some?
    && id == StableViewId(e.warehouse.value, e.namespace, e.name.value)
  }

  /** Everything a view's record needs is there, and the event shows the accepted version. */
  predicate ViewReady(e: Event, b: Bootstrap, id: string) {
    && Placed(e, id) && e.warehouse != Some("") && e.name != Some("")
    && 0 < e.graphEvents < U64_LIMIT && ProperHashes(e.replayHashes) && ProperHashes(e.lineageHashes)
    && AcceptedOf(b, id).Some?
    && var v := AcceptedOf(b, id).value;
       e.version == Some(v.version) && 0 < v.version < U64_LIMIT && IsFullHash(v.receiptHash) && IsFullHash(v.chainHash)
  }

  lemma ViewMembers(e: Event, b: Bootstrap, id: string)
    ensures ViewRecord(e, b, id).Obj?
    ensures var o := ViewRecord(e, b, id).members;
      && Get(o, StableId) == Some(Str(id)) && Get(o, Warehouse) == Some(OptStr(e.warehouse))
      && Get(o, Namespace) == Some(StrArr(e.namespace)) && Get(o, Name) == Some(OptStr(e.name))
      && Get(o, ViewVersion) == Some(OptNum(e.version))
      && Get(o, AcceptedViewVersion) == Some(OptNum(Lookup(b.versions, id)))
      && Get(o, AcceptedReceiptHash) == Some(OptStr(Lookup(b.receiptHashes, id)))
      && Get(o, AcceptedReceiptChainHash) == Some(OptStr(Lookup(b.chainHashes, id)))
      && Get(o, EventType) == Some(Str(e.eventType)) && Get(o, ExpectedViewVersion) == Some(OptNum(e.expectedVersion))
      && Get(o, GraphEvents) == Some(Num(e.graphEvents))
      && Get(o, ReplayEventHashes) == Some(StrArr(e.replayHashes))
      && Get(o, OpenLineageHashes) == Some(StrArr(e.lineageHashes))
  {
    hide StrArr, Lookup, OptStr, OptNum;
  }

  predicate Hashed(hashes: map<string, string>, id: string) {
    id in hashes && IsFullHash(hashes[id])
  }

  function Versioned(b: Bootstrap, id: string): Option<nat> {
    var n :- Lookup(b.versions, id);
    if n < U64_LIMIT then Some(n) else None
  }

  lemma ViewVersionRead(e: Event, b: Bootstrap, id: string)
    ensures ViewRecord(e, b, id).Obj? && RequiredStr(ViewRecord(e, b, id).members, StableId) == Some(id)
    ensures RequiredU64(ViewRecord(e, b, id).members, AcceptedViewVersion) == Versioned(b, id)
  {
    ViewMembers(e, b, id);
    hide ViewRecord;
    OptNumRead(ViewRecord(e, b, id).members, AcceptedViewVersion, Lookup(b.versions, id));
  }

  lemma ViewFields(e: Event, b: Bootstrap, id: string)
    ensures ViewRecord(e, b, id).Obj?
    ensures var o := ViewRecord(e, b, id).members;
      && NonEmptyStr(o, StableId) == NonEmpty(id)
      && NonEmptyStr(o, Warehouse) == (if e.warehouse == Some("") then None else e.warehouse)
      && NonEmptyStr(o, Name) == (if e.name == Some("") then None else e.name)
      && RequiredU64(o, ViewVersion) == (if e.version.Some? && e.version.value < U64_LIMIT then e.version else None)
      && PositiveU64(o, GraphEvents) == (if 0 < e.graphEvents < U64_LIMIT then Some(e.graphEvents) else None)
      && FullHashStr(o, AcceptedReceiptHash)
         == (if Hashed(b.receiptHashes, id) then Some(b.receiptHashes[id]) else None)
      && FullHashStr(o, AcceptedReceiptChainHash)
         == (if Hashed(b.chainHashes, id) then Some(b.chainHashes[id]) else None)
  {
    ViewMembers(e, b, id);
    hide ViewRecord;
    var o := ViewRecord(e, b, id).members;
    OptStrRead(o, Warehouse, e.warehouse);
    OptStrRead(o, Name, e.name);
    OptStrRead(o, AcceptedReceiptHash, Lookup(b.receiptHashes, id));
    OptStrRead(o, AcceptedReceiptChainHash, Lookup(b.chainHashes, id));
    OptNumRead(o, ViewVersion, e.version);
    hide OptStr, OptNum, FullHashStr, IsFullHash, StrArr;
  }

  /** A view's record is read as the accepted view exactly when the view is ready. */
  lemma ViewRead(e: Event, b: Bootstrap, id: string)
    ensures ReadAcceptedView(ViewRecord(e, b, id)) == if ViewReady(e, b, id) then AcceptedOf(b, id) else None
  {
    ViewMembers(e, b, id);
    ViewFields(e, b, id);
    ViewVersionRead(e, b, id);
    hide ViewRecord;
    var o := ViewRecord(e, b, id).members;
    ComponentsRead(o, e.namespace);
    HashArrayRead(o, ReplayEventHashes, e.replayHashes);
    HashArrayRead(o, OpenLineageHashes, e.lineageHashes);
    hide OptStr, OptNum, Get, NonEmptyStr, RequiredU64, RequiredStr, FullHashStr, FullHashArray, PositiveU64,
      Components, ProperHashes, IsFullHash, StrArr;
    if id == "" && e.warehouse.Some? && e.name.Some? {
      assert StableViewId(e.warehouse.value, e.namespace, e.name.value)[0] == 'l';
    }
    hide StableViewId;
  }

  lemma TombstoneMembers(events: seq<Event>, e: Event)
    ensures TombstoneRecord(events, e).Obj? && TombstoneRecord(events, e).members.Keys == TOMBSTONE_FIELDS
    ensures var o := TombstoneRecord(events, e).members;
      && Get(o, StableId) == Some(OptStr(e.stableId)) && Get(o, Warehouse) == Some(OptStr(e.warehouse))
      && Get(o, Namespace) == Some(StrArr(e.namespace)) && Get(o, Name) == Some(OptStr(e.name))
      && Get(o, ExpectedViewVersion) == Some(OptNum(ExpectedAtDrop(events, e.stableId)))
      && Get(o, ReceiptHashes) == Some(StrArr(e.receiptHashes))
      && Get(o, ReplayEventHashes) == Some(StrArr(e.replayHashes))
      && Get(o, OpenLineageHashes) == Some(StrArr(e.lineageHashes))
  {
    hide StrArr, ExpectedAtDrop;
  }

  predicate TombstoneReady(e: Event) {
    && e.stableId.Some? && ProperHashes(e.receiptHashes)
    && ProperHashes(e.replayHashes) && ProperHashes(e.lineageHashes)
  }

  lemma TombstoneRead(events: seq<Event>, e: Event)
    ensures ReadTombstone(TombstoneRecord(events, e))
         == if TombstoneReady(e) then Some(Tombstone(e.stableId.value, e.receiptHashes)) else None
  {
    TombstoneMembers(events, e);
    hide TombstoneRecord;
    var o := TombstoneRecord(events, e).members;
    OptStrRead(o, StableId, e.stableId);
    HashArrayRead(o, ReceiptHashes, e.receiptHashes);
    HashArrayRead(o, ReplayEventHashes, e.replayHashes);
    HashArrayRead(o, OpenLineageHashes, e.lineageHashes);
    hide OptStr, Get, RequiredStr, FullHashArray, ProperHashes, StrArr;
  }

  // ---- expected versions ----

  /** Although the last record of a view counts, all records of one view say the same. */
  lemma {:induction false} AcceptedVersionRead(events: seq<Event>, b: Bootstrap, views: seq<Json>, n: nat, id: string)
    requires ViewRecords(events, b) == Some(views) && n <= |views|
    ensures AcceptedVersion(views[..n], id) == if id in b.verifiedViews[..n] then Versioned(b, id) else None
    decreases n
  {
    hide ViewRecord, FindEvent, Versioned, RequiredU64, RequiredStr;
    if n > 0 {
      AcceptedVersionRead(events, b, views, n - 1, id);
      var last := b.verifiedViews[n - 1];
      assert views[..n][..n - 1] == views[..n - 1];
      assert b.verifiedViews[..n] == b.verifiedViews[..n - 1] + [last];
      ViewVersionRead(FindEvent(events, LIFE_EVENTS, last).value, b, last);
    }
  }

  predicate DropsView(e: Event, id: string) {
    e.eventType == "view.dropped" && e.stableId == Some(id)
  }

  /** The first drop of a view decides, whatever later ones expected; without a drop there is no version. */
  lemma FirstDropDecides(events: seq<Event>, id: string, i: nat)
    requires i <= |events| && forall j :: 0 <= j < i ==> !DropsView(events[j], id)
    ensures i < |events| && DropsView(events[i], id) ==>
              ExpectedAtDrop(events, Some(id)) == events[i].expectedVersion
    ensures i == |events| ==> ExpectedAtDrop(events, Some(id)) == None
  {
    var types := {"view.dropped"};
    assert forall e: Event :: Concerns(e, types, id) <==> DropsView(e, id);
    if i < |events| {
      assert events[i] in events;
    }
  }

  /** The dropped view is a verified one and was dropped at its accepted version. */
  predicate DropAgrees(events: seq<Event>, b: Bootstrap, e: Event) {
    && e.stableId.Some? && Placed(e, e.stableId.value)
    && e.stableId.value in b.verifiedViews && Versioned(b, e.stableId.value).Some?
    && ExpectedAtDrop(events, e.stableId) == Versioned(b, e.stableId.value)
  }

  lemma ExpectedVersionRead(events: seq<Event>, b: Bootstrap, views: seq<Json>, e: Event)
    requires ViewRecords(events, b) == Some(views)
    ensures ExpectedVersionOk(views, TombstoneRecord(events, e)) <==> DropAgrees(events, b, e)
  {
    TombstoneMembers(events, e);
    hide TombstoneRecord;
    var o := TombstoneRecord(events, e).members;
    OptStrRead(o, StableId, e.stableId);
    OptStrRead(o, Warehouse, e.warehouse);
    OptStrRead(o, Name, e.name);
    ComponentsRead(o, e.namespace);
    OptNumRead(o, ExpectedViewVersion, ExpectedAtDrop(events, e.stableId));
    if e.stableId.Some? {
      assert views[..|views|] == views && b.verifiedViews[..|views|] == b.verifiedViews;
      AcceptedVersionRead(events, b, views, |views|, e.stableId.value);
    }
    hide OptStr, OptNum, Get, RequiredStr, RequiredU64, Components, StableViewId, AcceptedVersion, ExpectedAtDrop,
      ViewRecords, StrArr;
  }

  lemma ExpectedVersionsExact(events: seq<Event>, b: Bootstrap, order: set<string> -> seq<string>, proof: Object)
    requires b.verifiedViews != [] && ReplayEvidence(events, b, order) == Some(proof)
    ensures ExpectedVersionsOk(proof) <==>
      && (forall id :: id in b.verifiedViews ==> Versioned(b, id).Some?)
      && (forall e :: e in events && e.eventType == RECEIPTS_LISTED ==> DropAgrees(events, b, e))
  {
    hide ViewRecord, TombstoneRecord, GroupRecord, FindEvent, ExpectedVersionOk, DropAgrees, Versioned, Records,
      AcceptedVersion;
    var views := ViewRecords(events, b).value;
    var tombstones := Records(events, RECEIPTS_LISTED, (e: Event) => TombstoneRecord(events, e));
    assert RequiredArr(proof, Views) == Some(views) && RequiredArr(proof, TombstoneReceipts) == Some(tombstones);
    forall i | 0 <= i < |views| ensures VersionedView(views[i]) <==> Versioned(b, b.verifiedViews[i]).Some? {
      ViewVersionRead(FindEvent(events, LIFE_EVENTS, b.verifiedViews[i]).value, b, b.verifiedViews[i]);
    }
    forall e: Event {
      ExpectedVersionRead(events, b, views, e);
    }
    hide VersionedView, ViewRecords, RequiredArr, ReplayEvidence;
    assert (forall v :: v in views ==> VersionedView(v)) <==> forall i :: 0 <= i < |views| ==> VersionedView(views[i]);
  }

  // ---- accepted receipts ----

  /** Exactly the accepted receipts are listed, and no two views share one. */
  predicate ReceiptsListed(b: Bootstrap, listed: seq<string>) {
    && ProperHashes(listed)
    && (forall id :: id in b.verifiedViews ==> Hashed(b.receiptHashes, id))
    && (forall i, j :: 0 <= i < j < |b.verifiedViews| ==>
          Lookup(b.receiptHashes, b.verifiedViews[i]) != Lookup(b.receiptHashes, b.verifiedViews[j]))
    && ToSet(listed) == set id | id in b.verifiedViews && id in b.receiptHashes :: b.receiptHashes[id]
  }

  lemma AcceptedHashesRead(events: seq<Event>, b: Bootstrap, views: seq<Json>)
    requires ViewRecords(events, b) == Some(views)
    ensures AcceptedHashes(views).Some? <==> forall id :: id in b.verifiedViews ==> Hashed(b.receiptHashes, id)
    ensures AcceptedHashes(views).Some? ==> forall i :: 0 <= i < |views| ==>
              Some(AcceptedHashes(views).value[i]) == Lookup(b.receiptHashes, b.verifiedViews[i])
  {
    hide ViewRecord, FindEvent, IsFullHash, FullHashStr;
    forall i | 0 <= i < |views|
      ensures views[i].Obj?
      ensures FullHashStr(views[i].members, AcceptedReceiptHash)
           == if Hashed(b.receiptHashes, b.verifiedViews[i]) then Lookup(b.receiptHashes, b.verifiedViews[i]) else None
    {
      ViewFields(FindEvent(events, LIFE_EVENTS, b.verifiedViews[i]).value, b, b.verifiedViews[i]);
    }
    hide Hashed, ViewRecords;
  }

  lemma BootstrapExact(events: seq<Event>, b: Bootstrap, order: set<string> -> seq<string>, listed: seq<string>,
                       bootstrap: Object, proof: Object)
    requires b.verifiedViews != [] && ReplayEvidence(events, b, order) == Some(proof)
    requires Get(bootstrap, BOOTSTRAP_HASHES) == Some(StrArr(listed))
    ensures BootstrapOk(bootstrap, proof) <==>
              && b.viewCount < U64_LIMIT
              && if b.viewCount == 0 then listed == [] else ReceiptsListed(b, listed)
  {
    hide ViewRecord, TombstoneRecord, GroupRecord, FindEvent, Records, AcceptedHashes, IsFullHash, FullHashArray,
      ProperHashes;
    var views := ViewRecords(events, b).value;
    assert RequiredArr(proof, Views) == Some(views);
    assert RequiredU64(proof, ViewCount) == if b.viewCount < U64_LIMIT then Some(b.viewCount) else None;
    assert RequiredArr(bootstrap, BOOTSTRAP_HASHES).Some?;
    assert RequiredArr(bootstrap, BOOTSTRAP_HASHES).value == [] <==> listed == [];
    HashArrayRead(bootstrap, BOOTSTRAP_HASHES, listed);
    AcceptedHashesRead(events, b, views);
    var accepted := AcceptedHashes(views);
    if accepted.Some? {
      SameHashes(b, accepted.value);
    }
    hide ViewRecords, ReplayEvidence, RequiredArr, RequiredU64, StrArr, Get, Hashed;
  }

  lemma SameHashes(b: Bootstrap, accepted: seq<string>)
    requires |accepted| == |b.verifiedViews|
    requires forall i :: 0 <= i < |accepted| ==> Lookup(b.receiptHashes, b.verifiedViews[i]) == Some(accepted[i])
    ensures ToSet(accepted) == set id | id in b.verifiedViews && id in b.receiptHashes :: b.receiptHashes[id]
    ensures DuplicateFree(accepted) <==>
              forall i, j :: 0 <= i < j < |b.verifiedViews| ==>
                Lookup(b.receiptHashes, b.verifiedViews[i]) != Lookup(b.receiptHashes, b.verifiedViews[j])
  {
    forall i | 0 <= i < |accepted| ensures b.receiptHashes[b.verifiedViews[i]] in accepted {
      assert accepted[i] == b.receiptHashes[b.verifiedViews[i]];
    }
  }

  // ---- closed schemas ----

  lemma CompactIsClosed(c: ChainResponse)
    ensures ClosedChain(CompactChain(c))
  {
    var m := CompactChain(c).members;
    assert RequiredArr(m, Receipts) == Some(CompactReceipts(c.receipts));
    forall i | 0 <= i < |c.receipts| ensures Closed(CompactReceipt(c.receipts[i]), RECEIPT_FIELDS) {
    }
    hide CompactReceipt;
  }

  lemma {:induction false} ProducedAreClosed(listed: seq<ChainResponse>, b: Bootstrap, n: nat)
    requires n <= |b.verifiedViews|
    ensures forall c :: c in Produced(listed, b, n) ==> ClosedChain(c)
  {
    hide ClosedChain, CompactChain, KnownHashes;
    if n == 0 {
      forall c | c in Verified(listed) ensures ClosedChain(c) {
        VerifiedAreListed(listed, c);
        var r :| r in listed && c == CompactChain(r);
        CompactIsClosed(r);
      }
    } else {
      ProducedAreClosed(listed, b, n - 1);
      var cut := CutFor(listed, b, b.verifiedViews[n - 1]);
      if cut.Some? {
        CutIsClosed(listed, b, b.verifiedViews[n - 1]);
      }
    }
  }

  lemma CutIsClosed(listed: seq<ChainResponse>, b: Bootstrap, id: string)
    requires CutFor(listed, b, id).Some?
    ensures ClosedChain(CutFor(listed, b, id).value)
  {
    hide ClosedChain, CompactChain;
    var chain := FindChain(listed, id).value;
    var i := Position(chain.receipts, b.receiptHashes[id]).value;
    CompactIsClosed(chain.(chainHash := b.chainHashes[id], chainVerified := true, latestVersion := b.versions[id],
                           latestOperation := chain.receipts[i].operation, tombstoned := false,
                           receiptCount := i + 1, receipts := chain.receipts[..i + 1]));
  }

  lemma GroupIsClosed(events: seq<Event>, b: Bootstrap, order: set<string> -> seq<string>, e: Event)
    ensures ClosedGroup(GroupRecord(events, b, order, e))
  {
    hide Produced, ClosedChain, StrArr, DeclaredHashes;
    ProducedAreClosed(e.chains, b, |b.verifiedViews|);
  }

  /** The closed-schema check never stands in the way of what the producer writes. */
  lemma EvidenceIsClosed(events: seq<Event>, b: Bootstrap, order: set<string> -> seq<string>, proof: Object)
    requires ReplayEvidence(events, b, order) == Some(proof)
    ensures ClosedProof(proof)
  {
    hide ViewRecord, TombstoneRecord, GroupRecord, FindEvent, ClosedGroup, ClosedProof, ProofObject, Closed;
    if b.verifiedViews == [] {
      ObjectIsClosed(0, [], [], []);
    } else {
      var views := ViewRecords(events, b).value;
      var tombstones := Records(events, RECEIPTS_LISTED, (e: Event) => TombstoneRecord(events, e));
      var groups := Records(events, CHAINS_LISTED, (e: Event) => GroupRecord(events, b, order, e));
      forall i | 0 <= i < |views| ensures Closed(views[i], VIEW_FIELDS) {
        ViewIsClosed(FindEvent(events, LIFE_EVENTS, b.verifiedViews[i]).value, b, b.verifiedViews[i]);
      }
      forall t | t in tombstones ensures Closed(t, TOMBSTONE_FIELDS) {
        var e :| e in events && TombstoneRecord(events, e) == t;
        TombstoneIsClosed(events, e);
      }
      forall g | g in groups ensures ClosedGroup(g) {
        var e :| e in events && GroupRecord(events, b, order, e) == g;
        GroupIsClosed(events, b, order, e);
      }
      ObjectIsClosed(b.viewCount, views, tombstones, groups);
    }
  }

  lemma ViewIsClosed(e: Event, b: Bootstrap, id: string)
    ensures Closed(ViewRecord(e, b, id), VIEW_FIELDS)
  {
    hide StrArr, OptStr, OptNum, Lookup;
  }

  lemma TombstoneIsClosed(events: seq<Event>, e: Event)
    ensures Closed(TombstoneRecord(events, e), TOMBSTONE_FIELDS)
  {
    hide TombstoneRecord;
    TombstoneMembers(events, e);
  }

  lemma ObjectIsClosed(count: nat, views: seq<Json>, tombstones: seq<Json>, groups: seq<Json>)
    requires forall v :: v in views ==> Closed(v, VIEW_FIELDS)
    requires forall t :: t in tombstones ==> Closed(t, TOMBSTONE_FIELDS)
    requires forall g :: g in groups ==> ClosedGroup(g)
    ensures ClosedProof(ProofObject(count, views, tombstones, groups))
  {
    hide Closed, ClosedGroup;
  }

  lemma RecordKeys(events: seq<Event>, e: Event, b: Bootstrap, id: string)
    ensures ViewRecord(e, b, id).members.Keys == VIEW_FIELDS
    ensures TombstoneRecord(events, e).members.Keys == TOMBSTONE_FIELDS
  {
    hide StrArr, OptStr, OptNum, Lookup, ExpectedAtDrop;
  }

  lemma GroupKeys(e: Event, c: ChainResponse, r: ReceiptResponse)
    ensures GroupJson(e, [], []).members.Keys == GROUP_FIELDS
    ensures CompactChain(c).members.Keys == CHAIN_FIELDS && CompactReceipt(r).members.Keys == RECEIPT_FIELDS
  {
    hide StrArr, CompactReceipts;
  }

  /** The receipts of an accepted chain object, and the chain itself, have no member the producer does not write. */
  predicate OwnMembers(chain: Json, c: ChainResponse, r: ReceiptResponse) {
    && chain.Obj? && chain.members.Keys <= CompactChain(c).members.Keys
    && RequiredArr(chain.members, Receipts).Some?
    && forall x :: x in RequiredArr(chain.members, Receipts).value ==>
         x.Obj? && x.members.Keys <= CompactReceipt(r).members.Keys
  }

  /** Accepted evidence has, at every depth, no member that the producer does not write. */
  lemma NothingForeign(env: Env, proof: Object, events: seq<Event>, e: Event, b: Bootstrap, id: string,
                       c: ChainResponse, r: ReceiptResponse)
    requires EvidenceOk(env, proof)
    ensures proof.Keys <= ProofObject(0, [], [], []).Keys
    ensures RequiredArr(proof, Views).Some? && RequiredArr(proof, TombstoneReceipts).Some?
            && RequiredArr(proof, ReceiptChains).Some?
    ensures forall v :: v in RequiredArr(proof, Views).value ==>
              v.Obj? && v.members.Keys <= ViewRecord(e, b, id).members.Keys
    ensures forall t :: t in RequiredArr(proof, TombstoneReceipts).value ==>
              t.Obj? && t.members.Keys <= TombstoneRecord(events, e).members.Keys
    ensures forall g :: g in RequiredArr(proof, ReceiptChains).value ==>
              && g.Obj? && g.members.Keys <= GroupJson(e, [], []).members.Keys
              && RequiredArr(g.members, Chains).Some?
              && forall x :: x in RequiredArr(g.members, Chains).value ==> OwnMembers(x, c, r)
  {
    RecordKeys(events, e, b, id);
    GroupKeys(e, c, r);
    hide ViewRecord, TombstoneRecord, GroupJson, CompactChain, CompactReceipt, ListedEvidenceOk;
  }

  // ---- exactly when the evidence is accepted ----

  /** The chain group of a listing event is a valid one that declares nothing without a chain. */
  ghost predicate GroupReady(env: Env, events: seq<Event>, b: Bootstrap, order: set<string> -> seq<string>, e: Event) {
    var chains := ProducedChains(e, b);
    && ProperHeader(e, order(DeclaredHashes(e, events, b))) && 0 < |chains| < U64_LIMIT
    && GoodChains(env, e, chains) && NoStrayHash(e, events, b)
    && |chains| <= |e.receiptHashes|
    && (forall h :: h in e.receiptHashes <==>
          exists c, r :: c in ReadChains(env, chains).value && r in c.receipts && r.receiptHash == h)
  }

  /** The chains of all groups. */
  function ListedChains(env: Env, events: seq<Event>, b: Bootstrap, order: set<string> -> seq<string>): seq<Chain> {
    EvidenceChains(env, Records(events, CHAINS_LISTED, (e: Event) => GroupRecord(events, b, order, e)))
  }

  /** The view is ready, and a chain of its own carries its accepted chain hash. */
  predicate ViewBacked(chains: seq<Chain>, events: seq<Event>, b: Bootstrap, id: string) {
    var life := FindEvent(events, LIFE_EVENTS, id);
    && life.Some? && ViewReady(life.value, b, id)
    && exists c :: c in chains && c.stableId == id && c.chainHash == b.chainHashes[id]
  }

  /** The listed receipts are all in chains of the view. */
  predicate TombstoneBacked(chains: seq<Chain>, e: Event) {
    && TombstoneReady(e)
    && forall h :: h in e.receiptHashes ==>
         exists c, r :: c in chains && c.stableId == e.stableId.value && r in c.receipts && r.receiptHash == h
  }

  /** What makes the views, the dropped views and the chain groups good evidence together. */
  ghost predicate Accountable(env: Env, events: seq<Event>, b: Bootstrap, order: set<string> -> seq<string>) {
    var chains := ListedChains(env, events, b, order);
    && b.viewCount == |b.verifiedViews|
    && (exists e :: e in events && e.eventType == CHAINS_LISTED)
    && (forall e :: e in events && e.eventType == CHAINS_LISTED ==> GroupReady(env, events, b, order, e))
    && (forall id :: id in b.verifiedViews ==> ViewBacked(chains, events, b, id))
    && (forall e :: e in events && e.eventType == RECEIPTS_LISTED ==> TombstoneBacked(chains, e))
  }

  lemma HashesSpelled(chains: seq<Chain>, hashes: seq<string>)
    ensures AllReceiptHashes(chains) == ToSet(hashes) <==>
              forall h :: h in hashes <==> exists c, r :: c in chains && r in c.receipts && r.receiptHash == h
  {
    forall h ensures h in AllReceiptHashes(chains) <==>
                       exists c, r :: c in chains && r in c.receipts && r.receiptHash == h
    {
    }
    hide AllReceiptHashes;
    assert forall h :: h in hashes <==> h in ToSet(hashes);
  }

  lemma GroupExactly(env: Env, events: seq<Event>, b: Bootstrap, order: set<string> -> seq<string>, e: Event)
    requires Lists(order)
    ensures GroupOk(env, GroupRecord(events, b, order, e)) <==> GroupReady(env, events, b, order, e)
  {
    hide GroupJson, DeclaredHashes, ProducedChains, ProperHeader, NoStrayHash, AllReceiptHashes, ReadGroup, ChainsOk;
    var chainHashes := order(DeclaredHashes(e, events, b));
    assert DuplicateFree(chainHashes);
    ProducedGroupExact(env, e, events, b, chainHashes);
    if ReadChains(env, ProducedChains(e, b)).Some? {
      HashesSpelled(ReadChains(env, ProducedChains(e, b)).value, e.receiptHashes);
    }
    var group := GroupJson(e, chainHashes, ProducedChains(e, b));
    assert GroupRecord(events, b, order, e) == group;
    assert GroupReady(env, events, b, order, e) ==> GroupOk(env, group);
  }

  lemma ViewExactly(chains: seq<Chain>, e: Event, b: Bootstrap, id: string)
    ensures ViewOk(chains, ViewRecord(e, b, id)) <==>
              && ViewReady(e, b, id)
              && exists c :: c in chains && c.stableId == id && c.chainHash == b.chainHashes[id]
  {
    hide ViewRecord, ReadAcceptedView, Placed, ProperHashes, IsFullHash;
    ViewRead(e, b, id);
  }

  lemma GroupsExact(env: Env, events: seq<Event>, b: Bootstrap, order: set<string> -> seq<string>)
    requires Lists(order)
    ensures var groups := Records(events, CHAINS_LISTED, (e: Event) => GroupRecord(events, b, order, e));
      && (groups != [] <==> exists e :: e in events && e.eventType == CHAINS_LISTED)
      && ((forall g :: g in groups ==> GroupOk(env, g)) <==>
            forall e :: e in events && e.eventType == CHAINS_LISTED ==> GroupReady(env, events, b, order, e))
  {
    hide GroupRecord, GroupOk, GroupReady;
    var groups := Records(events, CHAINS_LISTED, (e: Event) => GroupRecord(events, b, order, e));
    forall e: Event
      ensures GroupOk(env, GroupRecord(events, b, order, e)) <==> GroupReady(env, events, b, order, e)
    {
      GroupExactly(env, events, b, order, e);
    }
    forall e | e in events && e.eventType == CHAINS_LISTED ensures groups != [] {
      assert GroupRecord(events, b, order, e) in groups;
    }
    assert groups != [] ==> groups[0] in groups;
  }

  lemma CoverageSpelled(chains: seq<Chain>, id: string, hashes: seq<string>)
    ensures ToSet(hashes) <= ReceiptHashesOf(chains, id) <==>
              forall h :: h in hashes ==>
                exists c, r :: c in chains && c.stableId == id && r in c.receipts && r.receiptHash == h
  {
    forall h ensures h in ReceiptHashesOf(chains, id) <==>
                       exists c, r :: c in chains && c.stableId == id && r in c.receipts && r.receiptHash == h
    {
    }
    hide ReceiptHashesOf;
    assert forall h :: h in hashes <==> h in ToSet(hashes);
  }

  lemma TombstoneExactly(events: seq<Event>, chains: seq<Chain>, e: Event)
    ensures TombstoneOk(chains, TombstoneRecord(events, e)) <==> TombstoneBacked(chains, e)
  {
    hide TombstoneRecord, ReadTombstone, ProperHashes, ReceiptHashesOf, ToSet;
    TombstoneRead(events, e);
    if e.stableId.Some? {
      CoverageSpelled(chains, e.stableId.value, e.receiptHashes);
    }
  }

  lemma TombstonesExact(events: seq<Event>, chains: seq<Chain>)
    ensures (forall t :: t in Records(events, RECEIPTS_LISTED, (e: Event) => TombstoneRecord(events, e)) ==>
               TombstoneOk(chains, t))
       <==> forall e :: e in events && e.eventType == RECEIPTS_LISTED ==> TombstoneBacked(chains, e)
  {
    hide TombstoneRecord, ReadTombstone, ReceiptHashesOf, ProperHashes, TombstoneBacked, TombstoneOk;
    forall e: Event ensures TombstoneOk(chains, TombstoneRecord(events, e)) <==> TombstoneBacked(chains, e) {
      TombstoneExactly(events, chains, e);
    }
  }

  lemma ViewsExact(events: seq<Event>, b: Bootstrap, views: seq<Json>, chains: seq<Chain>)
    requires ViewRecords(events, b) == Some(views)
    ensures (forall v :: v in views ==> ViewOk(chains, v)) <==>
              forall id :: id in b.verifiedViews ==> ViewBacked(chains, events, b, id)
  {
    hide ViewRecord, FindEvent, ViewOk, ViewReady;
    forall i | 0 <= i < |views|
      ensures ViewOk(chains, views[i]) <==> ViewBacked(chains, events, b, b.verifiedViews[i])
    {
      ViewExactly(chains, FindEvent(events, LIFE_EVENTS, b.verifiedViews[i]).value, b, b.verifiedViews[i]);
    }
    hide ViewRecords, ViewBacked;
    assert (forall v :: v in views ==> ViewOk(chains, v))
      <==> forall i :: 0 <= i < |views| ==> ViewOk(chains, views[i]);
  }

  lemma ListedEvidenceExact(env: Env, events: seq<Event>, b: Bootstrap, order: set<string> -> seq<string>,
                            views: seq<Json>)
    requires Lists(order) && ViewRecords(events, b) == Some(views)
    ensures ListedEvidenceOk(env, b.viewCount, views,
                             Records(events, RECEIPTS_LISTED, (e: Event) => TombstoneRecord(events, e)),
                             Records(events, CHAINS_LISTED, (e: Event) => GroupRecord(events, b, order, e)))
       <==> Accountable(env, events, b, order)
  {
    hide EvidenceChains, GroupOk, GroupReady, TombstoneOk, TombstoneBacked, ViewOk, ViewBacked, Records;
    var chains := ListedChains(env, events, b, order);
    GroupsExact(env, events, b, order);
    TombstonesExact(events, chains);
    ViewsExact(events, b, views, chains);
  }

  predicate ProofOk(env: Env, bootstrap: Object, proof: Object) {
    BootstrapOk(bootstrap, proof) && ExpectedVersionsOk(proof) && EvidenceOk(env, proof)
  }

  /** The three checks together accept what the producer writes exactly when either no view was verified and
      the bootstrap lists no receipt, or: every view has an accepted version, every receipt listing is of a
      verified view that was dropped at that version, the listed receipts are the accepted ones, and views,
      receipt listings and chain groups are good evidence together.  (A count of zero beside verified views
      would do away with the last two.) */
  lemma ProducedProofExact(env: Env, events: seq<Event>, b: Bootstrap, order: set<string> -> seq<string>,
                           listed: seq<string>, bootstrap: Object, proof: Object)
    requires Lists(order) && ReplayEvidence(events, b, order) == Some(proof)
    requires Get(bootstrap, BOOTSTRAP_HASHES) == Some(StrArr(listed))
    ensures ProofOk(env, bootstrap, proof) <==>
      if b.verifiedViews == [] then listed == [] else
      && (forall id :: id in b.verifiedViews ==> Versioned(b, id).Some?)
      && (forall e :: e in events && e.eventType == RECEIPTS_LISTED ==> DropAgrees(events, b, e))
      && b.viewCount < U64_LIMIT
      && if b.viewCount == 0 then listed == []
         else ReceiptsListed(b, listed) && Accountable(env, events, b, order)
  {
    hide ViewRecord, TombstoneRecord, GroupRecord, FindEvent, Records, Versioned, DropAgrees, ReceiptsListed,
      Accountable, ClosedProof, ListedEvidenceOk, Lists;
    EvidenceIsClosed(events, b, order, proof);
    if b.verifiedViews != [] {
      BootstrapExact(events, b, order, listed, bootstrap, proof);
      ExpectedVersionsExact(events, b, order, proof);
      ListedEvidenceExact(env, events, b, order, ViewRecords(events, b).value);
      hide BootstrapOk, ExpectedVersionsOk, ViewRecords;
    } else {
      assert RequiredArr(bootstrap, BOOTSTRAP_HASHES).value == [] <==> listed == [];
    }
  }

  // ---- coverage ----

  lemma {:induction false} GroupChainIsEvidence(env: Env, groups: seq<Json>, g: Json, c: Chain)
    requires g in groups && c in GroupChains(env, g)
    ensures c in EvidenceChains(env, groups)
  {
    hide GroupChains;
    var init, last := groups[..|groups| - 1], groups[|groups| - 1];
    assert groups == init + [last];
    if g != last {
      GroupChainIsEvidence(env, init, g, c);
    }
  }

  /** Coverage of a view follows from the groups wherever its namespace was listed: it fails only if a valid chain of
      another view carries the view's accepted chain hash. */
  lemma ScopeCovers(env: Env, events: seq<Event>, b: Bootstrap, order: set<string> -> seq<string>, e: Event, id: string)
    requires Lists(order) && e in events && e.eventType == CHAINS_LISTED && GroupReady(env, events, b, order, e)
    requires id in b.verifiedViews && AcceptedOf(b, id).Some? && InScope(e, events, id)
    ensures var chains := ListedChains(env, events, b, order);
      || ViewCovered(chains, AcceptedOf(b, id).value)
      || exists c :: c in chains && ChainOk(env, c) && c.chainHash == b.chainHashes[id] && c.stableId != id
  {
    hide Records, InScope, ProperHeader, AllReceiptHashes, DeclaredHashes, Produced, KnownHashes, ChainOk, ReadChain,
      EvidenceChains;
    var items := ProducedChains(e, b);
    var read := ReadChains(env, items).value;
    KnownAreRead(env, items);
    NoStrayAsSets(e, events, b);
    assert b.chainHashes[id] in AcceptedInScope(e, events, b);
    var i :| 0 <= i < |read| && read[i].chainHash == b.chainHashes[id];
    InGroup(env, events, b, order, e, read[i]);
  }

  lemma InGroup(env: Env, events: seq<Event>, b: Bootstrap, order: set<string> -> seq<string>, e: Event, c: Chain)
    requires Lists(order) && e in events && e.eventType == CHAINS_LISTED && GroupReady(env, events, b, order, e)
    requires c in ReadChains(env, ProducedChains(e, b)).value
    ensures c in ListedChains(env, events, b, order)
  {
    hide GroupJson, ProperHeader, AllReceiptHashes, DeclaredHashes, ProducedChains, NoStrayHash, ReadChain, ChainOk,
      DistinctChainHashes, EvidenceChains;
    GroupRead(e, order(DeclaredHashes(e, events, b)), ProducedChains(e, b));
    assert c in GroupChains(env, GroupRecord(events, b, order, e));
    var groups := Records(events, CHAINS_LISTED, (x: Event) => GroupRecord(events, b, order, x));
    assert GroupRecord(events, b, order, e) in groups;
    GroupChainIsEvidence(env, groups, GroupRecord(events, b, order, e), c);
  }
}
