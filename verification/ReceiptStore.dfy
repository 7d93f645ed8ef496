/** The receipts the store writes for one view, whatever its clock says, and when the chain that the service
    lists from them is verified. */
module ReceiptStore {
  import opened Json
  import opened ReceiptSchema
  import opened ReceiptVerifier
  import opened ReceiptHistory
  import opened ReceiptProducer
  import Authorization

  /** How an instant is written in a stored receipt, and in a listed one. */
  datatype Clock = Clock(stored: int -> string, listed: int -> string)

  datatype ViewKey = ViewKey(warehouse: string, namespace: seq<string>, name: string)

  /** A stored receipt with the instant it was recorded at. */
  datatype Entry = Entry(receipt: Receipt, at: int)

  datatype Current = Current(version: nat, view: Json)

  /** The rows of one view: its current record, and its receipts in the order they were written. */
  datatype Store = Store(current: Option<Current>, log: seq<Entry>)

  datatype Op =
    | Upsert(view: Json, principal: Authorization.Principal, at: int)
    | Drop(principal: Authorization.Principal, at: int)

  function Receipts(log: seq<Entry>): (r: seq<Receipt>)
    ensures |r| == |log| && forall i :: 0 <= i < |log| ==> r[i] == log[i].receipt
  {
    seq(|log|, i requires 0 <= i < |log| => log[i].receipt)
  }

  // ---- two orders ----

  /** Receipts are sorted by version, time and operation; the store puts an upsert before a drop of the same
      version and time, and the service, which compares the names, the drop before the upsert. */
  function Rank(operation: string, dropFirst: bool): nat {
    if (operation == "drop") == dropFirst then 0 else 1
  }

  predicate Before(a: Entry, b: Entry, dropFirst: bool) {
    || a.receipt.version < b.receipt.version
    || (a.receipt.version == b.receipt.version
        && (a.at < b.at
            || (a.at == b.at && Rank(a.receipt.operation, dropFirst) < Rank(b.receipt.operation, dropFirst))))
  }

  function Place(sorted: seq<Entry>, e: Entry, dropFirst: bool): seq<Entry> {
    if sorted == [] || !Before(e, sorted[|sorted| - 1], dropFirst) then sorted + [e]
    else Place(sorted[..|sorted| - 1], e, dropFirst) + [sorted[|sorted| - 1]]
  }

  /** The stable sort. */
  function Sorted(log: seq<Entry>, dropFirst: bool): seq<Entry> {
    if log == [] then []
    else Place(Sorted(log[..|log| - 1], dropFirst), log[|log| - 1], dropFirst)
  }

  // ---- the store ----

  predicate ValidReceipt(r: Receipt) {
    && r.stableId == StableViewId(r.warehouse, r.namespace, r.name) && r.version != 0
    && (r.operation == "upsert" ==> r.previousVersion.None? || r.previousVersion.value < r.version)
    && (r.operation == "drop" ==> r.previousVersion == Some(r.version))
  }

  predicate LinkedAt(receipts: seq<Receipt>, i: nat)
    requires i < |receipts|
  {
    if i == 0 then First(receipts[0]) else Linked(receipts[i - 1], receipts[i])
  }

  predicate Chained(receipts: seq<Receipt>) {
    forall i :: 0 <= i < |receipts| ==> LinkedAt(receipts, i)
  }

  /** The check the store makes before it writes or lists receipts. */
  predicate StoreAccepts(log: seq<Entry>) {
    (forall e :: e in log ==> ValidReceipt(e.receipt)) && Chained(Receipts(Sorted(log, false)))
  }

  function Latest(log: seq<Entry>): Option<Receipt> {
    var sorted := Sorted(log, false);
    if sorted == [] then None else Some(sorted[|sorted| - 1].receipt)
  }

  function NewEntry(env: Env, clock: Clock, key: ViewKey, version: nat, previousVersion: Option<nat>,
                    previousHash: Option<string>, operation: string, view: Json,
                    principal: Authorization.Principal, at: int): Entry
  {
    var r := Receipt(StableViewId(key.warehouse, key.namespace, key.name), key.warehouse, key.namespace, key.name,
                     version, previousVersion, previousHash, operation, env.digest(view), principal.subject,
                     Authorization.KindName(principal.kind), clock.stored(at), "");
    Entry(r.(receiptHash := env.digest(ReceiptPreimage(r))), at)
  }

  function VersionOf(r: Option<Receipt>): nat {
    if r.Some? then r.value.version else 0
  }

  /** One operation; one that fails changes nothing, except that a drop has already removed the record. */
  function Apply(env: Env, clock: Clock, key: ViewKey, s: Store, op: Op): Store {
    var latest := Latest(s.log);
    var latestHash := if latest.Some? then Some(latest.value.receiptHash) else None;
    match op
    case Upsert(view, principal, at) =>
      if !StoreAccepts(s.log) then s else
      var held := if s.current.Some? then s.current.value.version else 0;
      var base := if held < VersionOf(latest) then VersionOf(latest) else held;
      if base == U64_MAX then s else
      var previous := if s.current.Some? then Some(held)
                      else if latest.Some? then Some(latest.value.version) else None;
      Store(Some(Current(base + 1, view)),
            s.log + [NewEntry(env, clock, key, base + 1, previous, latestHash, "upsert", view, principal, at)])
    case Drop(principal, at) =>
      if s.current.None? then s
      else if !StoreAccepts(s.log) then s.(current := None)
      else
        var version := s.current.value.version;
        Store(None, s.log + [NewEntry(env, clock, key, version, Some(version), latestHash, "drop",
                                      s.current.value.view, principal, at)])
  }

  function After(env: Env, clock: Clock, key: ViewKey, ops: seq<Op>): Store {
    if ops == [] then Store(None, [])
    else Apply(env, clock, key, After(env, clock, key, ops[..|ops| - 1]), ops[|ops| - 1])
  }

  // ---- what the store keeps ----

  /** Digests have the form of a digest, and listed times are read as the stored ones. */
  ghost predicate Faithful(env: Env, clock: Clock) {
    && (forall v :: IsFullHash(env.digest(v)))
    && (forall t :: clock.listed(t) != "" && env.normalize(clock.listed(t)) == Some(clock.stored(t)))
  }

  predicate OwnReceipt(env: Env, clock: Clock, key: ViewKey, e: Entry) {
    var r := e.receipt;
    && r.stableId == StableViewId(key.warehouse, key.namespace, key.name) && r.warehouse == key.warehouse
    && r.namespace == key.namespace && r.name == key.name && 0 < r.version < U64_LIMIT
    && r.receiptHash == env.digest(ReceiptPreimage(r)) && IsFullHash(r.viewHash) && r.principalKind != ""
    && r.recordedAt == clock.stored(e.at)
  }

  /** An upsert follows as the next version; a drop follows an upsert, at its version and of its view. */
  predicate Follows(previous: Receipt, r: Receipt) {
    && r.previousVersion == Some(previous.version) && r.previousHash == Some(previous.receiptHash)
    && (|| (r.operation == "upsert" && r.version == previous.version + 1)
        || (r.operation == "drop" && r.version == previous.version && previous.operation == "upsert"
            && r.viewHash == previous.viewHash))
  }

  predicate KeptAt(env: Env, clock: Clock, key: ViewKey, log: seq<Entry>, i: nat)
    requires i < |log|
  {
    && OwnReceipt(env, clock, key, log[i])
    && if i == 0 then First(log[0].receipt) else Follows(log[i - 1].receipt, log[i].receipt)
  }

  predicate Kept(env: Env, clock: Clock, key: ViewKey, log: seq<Entry>) {
    forall i :: 0 <= i < |log| ==> KeptAt(env, clock, key, log, i)
  }

  predicate Later(a: Entry, b: Entry, dropFirst: bool) {
    a.at < b.at || (!dropFirst && a.at == b.at)
  }

  /** Every drop is recorded later than the upsert it follows, or, if upserts sort first, at the same time. */
  predicate InOrder(log: seq<Entry>, dropFirst: bool) {
    forall i :: 0 < i < |log| && log[i].receipt.operation == "drop" ==> Later(log[i - 1], log[i], dropFirst)
  }

  /** The current record is the one of the last upsert, and exists until it is dropped. */
  predicate Sound(env: Env, clock: Clock, key: ViewKey, s: Store) {
    && Kept(env, clock, key, s.log)
    && if s.current.Some? then
         && s.log != [] && InOrder(s.log, false)
         && var last := s.log[|s.log| - 1].receipt;
            && last.operation == "upsert" && last.version == s.current.value.version
            && last.viewHash == env.digest(s.current.value.view)
       else s.log != [] ==> s.log[|s.log| - 1].receipt.operation == "drop"
  }

  // ---- what sorting does to a kept log ----

  lemma KeptPrefix(env: Env, clock: Clock, key: ViewKey, log: seq<Entry>, n: nat)
    requires Kept(env, clock, key, log) && n <= |log|
    ensures Kept(env, clock, key, log[..n])
  {
    hide OwnReceipt, Follows, First;
    forall i | 0 <= i < n ensures KeptAt(env, clock, key, log[..n], i) {
      assert KeptAt(env, clock, key, log, i);
    }
  }

  lemma {:induction false} VersionsGrow(env: Env, clock: Clock, key: ViewKey, log: seq<Entry>, i: nat, j: nat)
    requires Kept(env, clock, key, log) && i < j < |log|
    ensures log[i].receipt.version <= log[j].receipt.version
    ensures log[j].receipt.operation == "upsert" ==> log[i].receipt.version < log[j].receipt.version
    decreases j
  {
    hide OwnReceipt;
    assert KeptAt(env, clock, key, log, j);
    if i < j - 1 {
      VersionsGrow(env, clock, key, log, i, j - 1);
    }
  }

  lemma {:induction false} PlaceMembers(sorted: seq<Entry>, e: Entry, dropFirst: bool)
    ensures forall x :: x in Place(sorted, e, dropFirst) <==> x in sorted || x == e
    ensures |Place(sorted, e, dropFirst)| == |sorted| + 1
  {
    hide Before;
    if sorted != [] && Before(e, sorted[|sorted| - 1], dropFirst) {
      assert sorted == sorted[..|sorted| - 1] + [sorted[|sorted| - 1]];
      PlaceMembers(sorted[..|sorted| - 1], e, dropFirst);
    }
  }

  lemma {:induction false} SortedMembers(log: seq<Entry>, dropFirst: bool)
    ensures forall x :: x in Sorted(log, dropFirst) <==> x in log
    ensures |Sorted(log, dropFirst)| == |log|
  {
    if log != [] {
      var init, last := log[..|log| - 1], log[|log| - 1];
      assert log == init + [last];
      SortedMembers(init, dropFirst);
      PlaceMembers(Sorted(init, dropFirst), last, dropFirst);
    }
  }

  /** An upsert is sorted to the end. */
  lemma UpsertSorted(env: Env, clock: Clock, key: ViewKey, log: seq<Entry>, dropFirst: bool)
    requires Kept(env, clock, key, log) && log != [] && log[|log| - 1].receipt.operation == "upsert"
    ensures Sorted(log, dropFirst) == Sorted(log[..|log| - 1], dropFirst) + [log[|log| - 1]]
    ensures forall x :: x in Sorted(log[..|log| - 1], dropFirst) ==> x.receipt.version < log[|log| - 1].receipt.version
  {
    hide Kept;
    var n := |log| - 1;
    var init := log[..n];
    SortedMembers(init, dropFirst);
    forall x | x in init ensures x.receipt.version < log[n].receipt.version {
      var i :| 0 <= i < n && init[i] == x;
      VersionsGrow(env, clock, key, log, i, n);
    }
    var sorted := Sorted(init, dropFirst);
    assert sorted != [] ==> sorted[|sorted| - 1] in sorted;
  }

  lemma PlaceDrop(rest: seq<Entry>, u: Entry, d: Entry, dropFirst: bool)
    requires u.receipt.operation == "upsert" && d.receipt.operation == "drop" && u.receipt.version == d.receipt.version
    requires forall x :: x in rest ==> x.receipt.version < d.receipt.version
    ensures Place(rest + [u], d, dropFirst) == rest + (if Later(u, d, dropFirst) then [u, d] else [d, u])
  {
    assert u.receipt.operation != "drop" by {
      assert "upsert"[0] == 'u' && "drop"[0] == 'd';
    }
    assert (rest + [u])[..|rest|] == rest;
    assert rest != [] ==> rest[|rest| - 1] in rest;
    assert Place(rest, d, dropFirst) == rest + [d];
  }

  /** A drop is sorted to the end if it is later than its upsert, and else right before it. */
  lemma DropSorted(env: Env, clock: Clock, key: ViewKey, log: seq<Entry>, n: nat, dropFirst: bool)
    requires Kept(env, clock, key, log) && |log| == n + 2 && log[n + 1].receipt.operation == "drop"
    ensures log[n].receipt.operation == "upsert" && log[n].receipt.version == log[n + 1].receipt.version
    ensures var rest := Sorted(log[..n], dropFirst);
      && (forall x :: x in rest ==> x.receipt.version < log[n].receipt.version)
      && Sorted(log, dropFirst)
         == rest + (if Later(log[n], log[n + 1], dropFirst) then [log[n], log[n + 1]] else [log[n + 1], log[n]])
  {
    var init := log[..n + 1];
    KeptPrefix(env, clock, key, log, n + 1);
    assert KeptAt(env, clock, key, log, n + 1);
    hide Kept, Place;
    UpsertSorted(env, clock, key, init, dropFirst);
    assert init[..n] == log[..n];
    PlaceDrop(Sorted(log[..n], dropFirst), log[n], log[n + 1], dropFirst);
    assert log[..n + 1] == init;
  }

  lemma ChainedPrefix(log: seq<Entry>, more: seq<Entry>)
    requires Chained(Receipts(log + more))
    ensures Chained(Receipts(log))
  {
    var short, long := Receipts(log), Receipts(log + more);
    forall i | 0 <= i < |short| ensures LinkedAt(short, i) {
      assert LinkedAt(long, i);
    }
  }

  lemma KeptIsChained(env: Env, clock: Clock, key: ViewKey, log: seq<Entry>)
    requires Kept(env, clock, key, log)
    ensures Chained(Receipts(log))
  {
    var receipts := Receipts(log);
    forall i | 0 <= i < |log| ensures LinkedAt(receipts, i) {
      assert KeptAt(env, clock, key, log, i);
      if i > 0 {
        assert KeptAt(env, clock, key, log, i - 1);
      }
    }
  }

  lemma OrderOfLast(log: seq<Entry>, dropFirst: bool)
    requires log != []
    ensures var n := |log| - 1;
      InOrder(log, dropFirst) <==>
        && InOrder(log[..n], dropFirst)
        && (n > 0 && log[n].receipt.operation == "drop" ==> Later(log[n - 1], log[n], dropFirst))
  {
    hide Later;
  }

  lemma MisplacedDrop(rest: seq<Entry>, u: Entry, d: Entry)
    requires d.receipt.operation == "drop" && forall x :: x in rest ==> x.receipt.version < d.receipt.version
    ensures !Chained(Receipts(rest + [d, u]))
  {
    var receipts := Receipts(rest + [d, u]);
    assert receipts[|rest|] == d.receipt;
    assert "upsert"[0] == 'u' && "drop"[0] == 'd';
    if rest != [] {
      assert receipts[|rest| - 1] == rest[|rest| - 1].receipt && rest[|rest| - 1] in rest;
    }
    assert !LinkedAt(receipts, |rest|);
  }

  /** Sorting leaves a kept log alone when it is in order; otherwise what comes out is no chain. */
  lemma {:induction false} SortedExactly(env: Env, clock: Clock, key: ViewKey, log: seq<Entry>, dropFirst: bool)
    requires Kept(env, clock, key, log)
    ensures InOrder(log, dropFirst) ==> Sorted(log, dropFirst) == log
    ensures Chained(Receipts(Sorted(log, dropFirst))) <==> InOrder(log, dropFirst)
    decreases |log|
  {
    hide Kept, InOrder, Chained, Sorted, Later, Receipts;
    KeptIsChained(env, clock, key, log);
    if log == [] {
      EmptyLog(dropFirst);
    } else {
      OrderOfLast(log, dropFirst);
      var m := |log| - 1;
      KeptPrefix(env, clock, key, log, m);
      LastOperation(env, clock, key, log);
      if log[m].receipt.operation == "upsert" {
        UpsertSorted(env, clock, key, log, dropFirst);
        SortedExactly(env, clock, key, log[..m], dropFirst);
        assert log == log[..m] + [log[m]];
        if Chained(Receipts(Sorted(log, dropFirst))) {
          ChainedPrefix(Sorted(log[..m], dropFirst), [log[m]]);
        }
      } else {
        var n := m - 1;
        DropSorted(env, clock, key, log, n, dropFirst);
        OrderOfLast(log[..m], dropFirst);
        KeptPrefix(env, clock, key, log, n);
        SortedExactly(env, clock, key, log[..n], dropFirst);
        assert log[..m][..n] == log[..n] && log == log[..n] + [log[n], log[m]];
        var rest := Sorted(log[..n], dropFirst);
        if !Later(log[n], log[m], dropFirst) {
          MisplacedDrop(rest, log[n], log[m]);
        } else if Chained(Receipts(Sorted(log, dropFirst))) {
          ChainedPrefix(rest, [log[n], log[m]]);
        }
      }
    }
  }

  lemma EmptyLog(dropFirst: bool)
    ensures Sorted([], dropFirst) == [] && InOrder([], dropFirst)
  {
  }

  lemma LastOperation(env: Env, clock: Clock, key: ViewKey, log: seq<Entry>)
    requires Kept(env, clock, key, log) && log != []
    ensures log[|log| - 1].receipt.operation == "upsert" || (log[|log| - 1].receipt.operation == "drop" && |log| > 1)
  {
    assert KeptAt(env, clock, key, log, |log| - 1);
  }

  // ---- every run of the store ----

  /** The store's own check passes exactly when no drop is recorded before the upsert it follows. */
  lemma StoreAcceptsExactly(env: Env, clock: Clock, key: ViewKey, log: seq<Entry>)
    requires Kept(env, clock, key, log)
    ensures StoreAccepts(log) <==> InOrder(log, false)
  {
    SortedExactly(env, clock, key, log, false);
    forall e | e in log ensures ValidReceipt(e.receipt) {
      var i :| 0 <= i < |log| && log[i] == e;
      KeptIsValid(env, clock, key, log, i);
    }
    hide ValidReceipt, Sorted, InOrder, Chained;
  }

  lemma KeptIsValid(env: Env, clock: Clock, key: ViewKey, log: seq<Entry>, i: nat)
    requires Kept(env, clock, key, log) && i < |log|
    ensures ValidReceipt(log[i].receipt)
  {
    hide StableViewId;
    assert KeptAt(env, clock, key, log, i);
    assert "upsert"[0] == 'u' && "drop"[0] == 'd';
  }

  lemma LatestIsLast(env: Env, clock: Clock, key: ViewKey, log: seq<Entry>)
    requires Kept(env, clock, key, log) && InOrder(log, false)
    ensures Latest(log) == if log == [] then None else Some(log[|log| - 1].receipt)
  {
    SortedExactly(env, clock, key, log, false);
    hide Sorted;
  }

  lemma KeptGrows(env: Env, clock: Clock, key: ViewKey, log: seq<Entry>, e: Entry)
    requires Kept(env, clock, key, log) && OwnReceipt(env, clock, key, e)
    requires if log == [] then First(e.receipt) else Follows(log[|log| - 1].receipt, e.receipt)
    ensures Kept(env, clock, key, log + [e])
  {
    hide OwnReceipt, Follows, First;
    forall i | 0 <= i <= |log| ensures KeptAt(env, clock, key, log + [e], i) {
      if i < |log| {
        assert KeptAt(env, clock, key, log, i);
      }
    }
  }

  lemma NewEntryIsOwn(env: Env, clock: Clock, key: ViewKey, version: nat, previousVersion: Option<nat>,
                      previousHash: Option<string>, operation: string, view: Json,
                      principal: Authorization.Principal, at: int)
    requires Faithful(env, clock) && 0 < version < U64_LIMIT
    ensures var e := NewEntry(env, clock, key, version, previousVersion, previousHash, operation, view, principal, at);
      && OwnReceipt(env, clock, key, e) && e.at == at && e.receipt.version == version
      && e.receipt.previousVersion == previousVersion && e.receipt.previousHash == previousHash
      && e.receipt.operation == operation && e.receipt.viewHash == env.digest(view)
      && e.receipt.principalSubject == principal.subject
      && e.receipt.principalKind == Authorization.KindName(principal.kind)
  {
    hide IsFullHash, StableViewId, StrArr;
  }

  /** The log has grown by one receipt, made by this principal at this time. */
  predicate Appended(env: Env, clock: Clock, key: ViewKey, log: seq<Entry>, after: seq<Entry>, version: nat,
                     operation: string, view: Json, principal: Authorization.Principal, at: int)
  {
    && |after| == |log| + 1 && after[..|log|] == log
    && OwnReceipt(env, clock, key, after[|log|]) && after[|log|].at == at
    && var r := after[|log|].receipt;
       && r.version == version && r.operation == operation && r.viewHash == env.digest(view)
       && r.principalSubject == principal.subject && r.principalKind == Authorization.KindName(principal.kind)
       && (log == [] ==> r.previousVersion == None && r.previousHash == None)
       && (log != [] ==>
             var last := log[|log| - 1].receipt;
             r.previousVersion == Some(last.version) && r.previousHash == Some(last.receiptHash))
  }

  /** What an upsert does: unless a drop out of order has spoiled the log, or the version is the last of 64 bits,
      it writes the next version's receipt and keeps the view under that version. */
  lemma UpsertExactly(env: Env, clock: Clock, key: ViewKey, s: Store, view: Json, principal: Authorization.Principal,
                      at: int)
    requires Faithful(env, clock) && Sound(env, clock, key, s)
    ensures var after := Apply(env, clock, key, s, Upsert(view, principal, at));
      var version := if s.log == [] then 1 else s.log[|s.log| - 1].receipt.version + 1;
      if InOrder(s.log, false) && version < U64_LIMIT then
        && after.current == Some(Current(version, view))
        && Appended(env, clock, key, s.log, after.log, version, "upsert", view, principal, at)
      else after == s
  {
    hide Kept, InOrder, StoreAccepts, Latest, OwnReceipt, IsFullHash, Faithful, NewEntry, Authorization.KindName;
    StoreAcceptsExactly(env, clock, key, s.log);
    if InOrder(s.log, false) {
      LatestIsLast(env, clock, key, s.log);
      if s.log != [] {
        LastIsPositive(env, clock, key, s.log);
      }
      var latest := Latest(s.log);
      var base := if latest.Some? then latest.value.version else 0;
      if base < U64_MAX {
        NewEntryIsOwn(env, clock, key, base + 1, if latest.Some? then Some(base) else None,
                      if latest.Some? then Some(latest.value.receiptHash) else None, "upsert", view, principal, at);
      }
    }
  }

  /** What a drop does: it writes a receipt for the current version and view, if there is one, and forgets it. */
  lemma DropExactly(env: Env, clock: Clock, key: ViewKey, s: Store, principal: Authorization.Principal, at: int)
    requires Faithful(env, clock) && Sound(env, clock, key, s)
    ensures var after := Apply(env, clock, key, s, Drop(principal, at));
      if s.current.Some? then
        && after.current == None && s.log != []
        && Appended(env, clock, key, s.log, after.log, s.current.value.version, "drop", s.current.value.view,
                    principal, at)
      else after == s
  {
    hide Kept, InOrder, StoreAccepts, Latest, OwnReceipt, IsFullHash, Faithful, NewEntry, Authorization.KindName;
    if s.current.Some? {
      StoreAcceptsExactly(env, clock, key, s.log);
      LatestIsLast(env, clock, key, s.log);
      LastIsPositive(env, clock, key, s.log);
      var version := s.current.value.version;
      NewEntryIsOwn(env, clock, key, version, Some(version), Some(Latest(s.log).value.receiptHash), "drop",
                    s.current.value.view, principal, at);
    }
  }

  lemma AppendedIsKept(env: Env, clock: Clock, key: ViewKey, log: seq<Entry>, after: seq<Entry>, version: nat,
                       operation: string, view: Json, principal: Authorization.Principal, at: int)
    requires Kept(env, clock, key, log)
    requires Appended(env, clock, key, log, after, version, operation, view, principal, at)
    requires || (operation == "upsert" && version == if log == [] then 1 else log[|log| - 1].receipt.version + 1)
             || (operation == "drop" && log != []
                 && var last := log[|log| - 1].receipt;
                    last.operation == "upsert" && last.version == version && last.viewHash == env.digest(view))
    ensures Kept(env, clock, key, after)
    ensures InOrder(log, false) && operation == "upsert" ==> InOrder(after, false)
  {
    hide Kept, InOrder, OwnReceipt, Later, Authorization.KindName;
    var e := after[|log|];
    assert after == log + [e];
    KeptGrows(env, clock, key, log, e);
    OrderOfLast(after, false);
    assert "upsert"[0] == 'u' && "drop"[0] == 'd';
  }

  lemma StepIsSound(env: Env, clock: Clock, key: ViewKey, s: Store, op: Op)
    requires Faithful(env, clock) && Sound(env, clock, key, s)
    ensures Sound(env, clock, key, Apply(env, clock, key, s, op))
    ensures InOrder(s.log, false) || Apply(env, clock, key, s, op) == s
  {
    hide Apply, Kept, InOrder, OwnReceipt, Faithful, Authorization.KindName;
    var after := Apply(env, clock, key, s, op);
    if op.Upsert? {
      UpsertExactly(env, clock, key, s, op.view, op.principal, op.at);
      if after != s {
        var version := if s.log == [] then 1 else s.log[|s.log| - 1].receipt.version + 1;
        AppendedIsKept(env, clock, key, s.log, after.log, version, "upsert", op.view, op.principal, op.at);
      }
    } else {
      DropExactly(env, clock, key, s, op.principal, op.at);
      if s.current.Some? {
        AppendedIsKept(env, clock, key, s.log, after.log, s.current.value.version, "drop", s.current.value.view,
                       op.principal, op.at);
      }
    }
  }

  lemma LastIsPositive(env: Env, clock: Clock, key: ViewKey, log: seq<Entry>)
    requires Kept(env, clock, key, log) && log != []
    ensures 0 < log[|log| - 1].receipt.version < U64_LIMIT
  {
    assert KeptAt(env, clock, key, log, |log| - 1);
  }

  /** In every run, whatever the clock shows, the receipts in the order they were written are one chain of the view. */
  lemma {:induction false} RunIsSound(env: Env, clock: Clock, key: ViewKey, ops: seq<Op>)
    requires Faithful(env, clock)
    ensures Sound(env, clock, key, After(env, clock, key, ops))
  {
    hide Apply, Sound, Faithful;
    if ops == [] {
      EmptyIsSound(env, clock, key);
    } else {
      RunIsSound(env, clock, key, ops[..|ops| - 1]);
      StepIsSound(env, clock, key, After(env, clock, key, ops[..|ops| - 1]), ops[|ops| - 1]);
    }
  }

  lemma EmptyIsSound(env: Env, clock: Clock, key: ViewKey)
    ensures Sound(env, clock, key, Store(None, []))
  {
  }

  /** A drop recorded before the upsert it follows ends the view's history: from then on nothing changes. */
  lemma {:induction false} StuckForGood(env: Env, clock: Clock, key: ViewKey, ops: seq<Op>, more: seq<Op>)
    requires Faithful(env, clock) && !InOrder(After(env, clock, key, ops).log, false)
    ensures After(env, clock, key, ops + more) == After(env, clock, key, ops)
    decreases |more|
  {
    hide Apply, Sound, Faithful, InOrder;
    if more == [] {
      assert ops + more == ops;
    } else {
      var n := |more| - 1;
      StuckForGood(env, clock, key, ops, more[..n]);
      RunIsSound(env, clock, key, ops + more[..n]);
      StepIsSound(env, clock, key, After(env, clock, key, ops + more[..n]), more[n]);
      assert (ops + more)[..|ops + more| - 1] == ops + more[..n];
    }
  }

  // ---- the listed chain ----

  function Response(env: Env, clock: Clock, e: Entry): ReceiptResponse {
    var r := e.receipt;
    ReceiptResponse(r.stableId, r.warehouse, r.namespace, r.name, r.version, r.previousVersion, r.previousHash,
                    r.operation, r.viewHash, env.digest(ReceiptPreimage(r)), r.principalSubject, r.principalKind,
                    clock.listed(e.at))
  }

  function Responses(env: Env, clock: Clock, log: seq<Entry>): (r: seq<ReceiptResponse>)
    ensures |r| == |log| && forall i :: 0 <= i < |log| ==> r[i] == Response(env, clock, log[i])
  {
    seq(|log|, i requires 0 <= i < |log| => Response(env, clock, log[i]))
  }

  function ResponseHashes(receipts: seq<ReceiptResponse>): (hs: seq<string>)
    ensures |hs| == |receipts| && forall i :: 0 <= i < |hs| ==> hs[i] == receipts[i].receiptHash
  {
    seq(|receipts|, i requires 0 <= i < |receipts| => receipts[i].receiptHash)
  }

  function ListedChainHash(env: Env, receipts: seq<ReceiptResponse>): string
    requires receipts != []
  {
    var latest := receipts[|receipts| - 1];
    env.digest(Obj(map[DStableId := Str(latest.stableId), Warehouse := Str(latest.warehouse),
                       Namespace := StrArr(latest.namespace), Name := Str(latest.name),
                       DLatestViewVersion := Num(latest.viewVersion), DLatestOperation := Str(latest.operation),
                       Tombstoned := Bool(latest.operation == "drop"),
                       DReceiptHashes := StrArr(ResponseHashes(receipts))]))
  }

  predicate ResponseLinkedAt(receipts: seq<ReceiptResponse>, i: nat)
    requires i < |receipts|
  {
    var r := receipts[i];
    if i == 0 then
      r.operation == "upsert" && r.viewVersion == 1 && r.previousViewVersion.None? && r.previousReceiptHash.None?
    else
      var previous := receipts[i - 1];
      && r.previousReceiptHash == Some(previous.receiptHash) && r.previousViewVersion == Some(previous.viewVersion)
      && (|| (r.operation == "upsert" && r.viewVersion == SaturatingSucc(previous.viewVersion))
          || (r.operation == "drop" && r.viewVersion == previous.viewVersion))
  }

  predicate ProperChain(receipts: seq<ReceiptResponse>) {
    && receipts != []
    && forall i :: 0 <= i < |receipts| ==> receipts[i].viewVersion != 0 && ResponseLinkedAt(receipts, i)
  }

  /** The chain the service lists for the view's receipts. */
  function ListedChain(env: Env, clock: Clock, log: seq<Entry>): Option<ChainResponse> {
    var receipts := Responses(env, clock, Sorted(log, true));
    if !StoreAccepts(log) || receipts == [] then None else
    var latest := receipts[|receipts| - 1];
    Some(ChainResponse(latest.stableId, latest.warehouse, latest.namespace, latest.name,
                       ListedChainHash(env, receipts), ProperChain(receipts), latest.viewVersion,
                       latest.operation, latest.operation == "drop", |receipts|, receipts))
  }

  lemma ResponsesLinked(env: Env, clock: Clock, key: ViewKey, log: seq<Entry>)
    requires forall e :: e in log ==> OwnReceipt(env, clock, key, e)
    ensures ProperChain(Responses(env, clock, log)) <==> log != [] && Chained(Receipts(log))
  {
    hide ReceiptPreimage, StableViewId, IsFullHash;
    var receipts, responses := Receipts(log), Responses(env, clock, log);
    forall i | 0 <= i < |log|
      ensures responses[i].viewVersion != 0 && (ResponseLinkedAt(responses, i) <==> LinkedAt(receipts, i))
    {
      assert log[i] in log;
      if i > 0 {
        assert log[i - 1] in log;
      }
    }
    hide ResponseLinkedAt, LinkedAt;
  }

  /** A view's receipts are listed unless a drop is recorded before its upsert, and listed as a verified chain exactly
      when every drop is recorded strictly later than its upsert. */
  lemma ListedExactly(env: Env, clock: Clock, key: ViewKey, log: seq<Entry>)
    requires Kept(env, clock, key, log)
    ensures ListedChain(env, clock, log).Some? <==> log != [] && InOrder(log, false)
    ensures ListedChain(env, clock, log).Some? ==>
              (ListedChain(env, clock, log).value.chainVerified <==> InOrder(log, true))
  {
    StoreAcceptsExactly(env, clock, key, log);
    SortedExactly(env, clock, key, log, true);
    SortedMembers(log, true);
    var sorted := Sorted(log, true);
    forall e | e in log ensures OwnReceipt(env, clock, key, e) {
      var i :| 0 <= i < |log| && log[i] == e;
      assert KeptAt(env, clock, key, log, i);
    }
    hide Kept, OwnReceipt, Sorted, StoreAccepts, InOrder, ProperChain, Chained, ListedChainHash;
    ResponsesLinked(env, clock, key, sorted);
  }

  // ---- what the verifier makes of it ----

  /** What the validated names of a view are. */
  predicate Named(key: ViewKey) {
    key.warehouse != "" && key.namespace != [] && "" !in key.namespace && key.name != ""
  }

  predicate LinksReadable(r: Receipt) {
    && (r.previousVersion.Some? ==> r.previousVersion.value < U64_LIMIT)
    && (r.previousHash.Some? ==> IsFullHash(r.previousHash.value))
  }

  /** A listed receipt is read back as the stored one, if its author has a name. */
  lemma ListedReceiptRead(env: Env, clock: Clock, key: ViewKey, e: Entry)
    requires Faithful(env, clock) && Named(key) && OwnReceipt(env, clock, key, e) && LinksReadable(e.receipt)
    ensures ReadReceipt(env, CompactReceipt(Response(env, clock, e)))
         == if e.receipt.principalSubject == "" then None else Some(e.receipt)
  {
    hide CompactReceipt, ReceiptPreimage, IsFullHash, StableViewId;
    StableIdNotEmpty(key);
    CompactReceiptRead(env, Response(env, clock, e));
  }

  lemma StableIdNotEmpty(key: ViewKey)
    ensures StableViewId(key.warehouse, key.namespace, key.name) != ""
  {
    assert StableViewId(key.warehouse, key.namespace, key.name)[0] == 'l';
  }

  lemma KeptIsReadable(env: Env, clock: Clock, key: ViewKey, log: seq<Entry>, i: nat)
    requires Faithful(env, clock) && Kept(env, clock, key, log) && i < |log|
    ensures OwnReceipt(env, clock, key, log[i]) && LinksReadable(log[i].receipt)
  {
    assert KeptAt(env, clock, key, log, i);
    if i > 0 {
      assert KeptAt(env, clock, key, log, i - 1);
    }
    hide IsFullHash, ReceiptPreimage, StableViewId;
  }

  predicate AuthorsNamed(log: seq<Entry>) {
    forall i :: 0 <= i < |log| ==> log[i].receipt.principalSubject != ""
  }

  lemma ListedReceiptsRead(env: Env, clock: Clock, key: ViewKey, log: seq<Entry>)
    requires Faithful(env, clock) && Named(key) && Kept(env, clock, key, log)
    ensures ReadReceipts(env, CompactReceipts(Responses(env, clock, log)))
         == if AuthorsNamed(log) then Some(Receipts(log)) else None
  {
    hide Faithful, Named, Kept, OwnReceipt, LinksReadable, ReadReceipt, CompactReceipt, Response;
    var items := CompactReceipts(Responses(env, clock, log));
    forall i | 0 <= i < |log|
      ensures ReadReceipt(env, items[i])
           == if log[i].receipt.principalSubject == "" then None else Some(log[i].receipt)
    {
      KeptIsReadable(env, clock, key, log, i);
      ListedReceiptRead(env, clock, key, log[i]);
    }
    var read := ReadReceipts(env, items);
    if AuthorsNamed(log) {
      assert read.value == Receipts(log);
    }
  }

  /** The chain that is read from a listing in the order of writing. */
  function StoredChain(env: Env, clock: Clock, key: ViewKey, log: seq<Entry>): Chain
    requires log != []
  {
    var latest := log[|log| - 1].receipt;
    Chain(StableViewId(key.warehouse, key.namespace, key.name), key.warehouse, key.namespace, key.name,
          ListedChainHash(env, Responses(env, clock, log)), true, latest.version, latest.operation,
          latest.operation == "drop", |log|, Receipts(log))
  }

  lemma KeptIsHistory(env: Env, clock: Clock, key: ViewKey, log: seq<Entry>)
    requires Kept(env, clock, key, log)
    ensures History(env, Receipts(log)) && forall e :: e in log ==> OwnReceipt(env, clock, key, e)
  {
    hide ReceiptPreimage, StableViewId, IsFullHash;
    KeptIsChained(env, clock, key, log);
    forall i | 0 <= i < |log| ensures OwnReceipt(env, clock, key, log[i]) && ReceiptOk(env, Receipts(log), i) {
      assert KeptAt(env, clock, key, log, i);
      assert LinkedAt(Receipts(log), i);
    }
  }

  lemma StoredChainHash(env: Env, clock: Clock, key: ViewKey, log: seq<Entry>)
    requires log != [] && forall e :: e in log ==> OwnReceipt(env, clock, key, e)
    ensures ListedChainHash(env, Responses(env, clock, log))
         == env.digest(ChainPreimage(StoredChain(env, clock, key, log)))
  {
    hide ReceiptPreimage, StableViewId, IsFullHash, StrArr;
    var responses, receipts := Responses(env, clock, log), Receipts(log);
    forall i | 0 <= i < |log| ensures ResponseHashes(responses)[i] == Hashes(receipts)[i] {
      assert log[i] in log;
    }
    assert ResponseHashes(responses) == Hashes(receipts);
    assert log[|log| - 1] in log;
  }

  lemma StoredChainOk(env: Env, clock: Clock, key: ViewKey, log: seq<Entry>)
    requires Kept(env, clock, key, log) && log != []
    ensures ChainOk(env, StoredChain(env, clock, key, log))
  {
    KeptIsHistory(env, clock, key, log);
    LastOperation(env, clock, key, log);
    StoredChainHash(env, clock, key, log);
    hide Kept, History, ReceiptPreimage, ChainPreimage, ListedChainHash, StableViewId, IsFullHash;
    var c := StoredChain(env, clock, key, log);
    forall i | 0 <= i < |log| ensures SameView(c, c.receipts[i]) {
      assert log[i] in log;
    }
  }

  lemma ListedAsWritten(env: Env, clock: Clock, key: ViewKey, log: seq<Entry>)
    requires Kept(env, clock, key, log) && log != [] && InOrder(log, true)
    ensures var c := StoredChain(env, clock, key, log);
      ListedChain(env, clock, log)
      == Some(ChainResponse(c.stableId, c.warehouse, c.namespace, c.name, c.chainHash, c.chainVerified, c.latestVersion,
                            c.latestOperation, c.tombstoned, c.receiptCount, Responses(env, clock, log)))
  {
    ListedExactly(env, clock, key, log);
    SortedExactly(env, clock, key, log, true);
    KeptIsHistory(env, clock, key, log);
    assert InOrder(log, false);
    hide Kept, InOrder, Sorted, ProperChain, StoreAccepts, ListedChainHash, StableViewId, ReceiptPreimage, IsFullHash,
      History;
    assert log[|log| - 1] in log;
  }

  lemma ListedChainRead(env: Env, clock: Clock, key: ViewKey, log: seq<Entry>)
    requires Faithful(env, clock) && Named(key) && Kept(env, clock, key, log) && log != [] && InOrder(log, true)
    ensures ListedChain(env, clock, log).Some?
    ensures ReadChain(env, CompactChain(ListedChain(env, clock, log).value))
         == if AuthorsNamed(log) && |log| < U64_LIMIT then Some(StoredChain(env, clock, key, log)) else None
  {
    hide Kept, InOrder, AuthorsNamed, ListedChain, ListedChainHash, StableViewId, CompactChain, ReadReceipts,
      CompactReceipts, ReadChain, IsFullHash;
    ListedAsWritten(env, clock, key, log);
    ListedReceiptsRead(env, clock, key, log);
    LastIsPositive(env, clock, key, log);
    StableIdNotEmpty(key);
    HashIsFull(env, clock, Responses(env, clock, log));
    hide Faithful;
    CompactChainRead(env, ListedChain(env, clock, log).value);
  }

  lemma HashIsFull(env: Env, clock: Clock, receipts: seq<ReceiptResponse>)
    requires Faithful(env, clock) && receipts != []
    ensures IsFullHash(ListedChainHash(env, receipts))
  {
    hide IsFullHash, StrArr;
  }

  /** The store's log is listed as a chain that the verifier accepts exactly when every drop is recorded strictly
      later than the upsert it follows, and every author has a name. */
  lemma VerifierAcceptsExactly(env: Env, clock: Clock, key: ViewKey, log: seq<Entry>)
    requires Faithful(env, clock) && Named(key) && Kept(env, clock, key, log)
    ensures var listed := ListedChain(env, clock, log);
      (&& listed.Some? && ReadChain(env, CompactChain(listed.value)).Some?
       && ChainOk(env, ReadChain(env, CompactChain(listed.value)).value))
      <==> log != [] && InOrder(log, true) && AuthorsNamed(log) && |log| < U64_LIMIT
  {
    hide Faithful, Named, Kept, InOrder, AuthorsNamed, StoredChain, ReadChain, ListedChain, CompactChain;
    ListedExactly(env, clock, key, log);
    if log != [] && InOrder(log, true) {
      ListedChainRead(env, clock, key, log);
      StoredChainOk(env, clock, key, log);
    } else if ListedChain(env, clock, log).Some? {
      CompactChainRead(env, ListedChain(env, clock, log).value);
    }
  }

  /** So for every run of the store: the receipts of a view can be listed, are listed as verified, and are accepted,
      under conditions on the clock alone and on the names of the authors. */
  lemma RunExactly(env: Env, clock: Clock, key: ViewKey, ops: seq<Op>)
    requires Faithful(env, clock) && Named(key)
    ensures var log := After(env, clock, key, ops).log; var listed := ListedChain(env, clock, log);
      && (listed.Some? <==> log != [] && InOrder(log, false))
      && (listed.Some? ==> (listed.value.chainVerified <==> InOrder(log, true)))
      && ((&& listed.Some? && ReadChain(env, CompactChain(listed.value)).Some?
           && ChainOk(env, ReadChain(env, CompactChain(listed.value)).value))
          <==> log != [] && InOrder(log, true) && AuthorsNamed(log) && |log| < U64_LIMIT)
  {
    RunIsSound(env, clock, key, ops);
    hide Faithful, Named, Kept, InOrder, AuthorsNamed, ReadChain, ListedChain, CompactChain, After, ChainOk;
    var log := After(env, clock, key, ops).log;
    ListedExactly(env, clock, key, log);
    VerifierAcceptsExactly(env, clock, key, log);
  }

  /** A drop recorded at the very time of the upsert it follows is fine for the store, and listed as unverified. */
  lemma TiedDrop(env: Env, clock: Clock, key: ViewKey, view: Json, principal: Authorization.Principal, at: int)
    requires Faithful(env, clock) && Named(key)
    ensures var s := After(env, clock, key, [Upsert(view, principal, at), Drop(principal, at)]);
      && s.current.None? && |s.log| == 2 && StoreAccepts(s.log)
      && ListedChain(env, clock, s.log).Some? && !ListedChain(env, clock, s.log).value.chainVerified
  {
    var ops := [Upsert(view, principal, at), Drop(principal, at)];
    TwoSteps(env, clock, key, view, principal, at);
    hide After, Faithful, ListedChain, StoreAccepts, Kept;
    RunIsSound(env, clock, key, ops);
    var log := After(env, clock, key, ops).log;
    StoreAcceptsExactly(env, clock, key, log);
    ListedExactly(env, clock, key, log);
  }

  lemma TwoSteps(env: Env, clock: Clock, key: ViewKey, view: Json, principal: Authorization.Principal, at: int)
    requires Faithful(env, clock)
    ensures var s := After(env, clock, key, [Upsert(view, principal, at), Drop(principal, at)]);
      && s.current.None? && |s.log| == 2 && s.log[0].at == at && s.log[1].at == at
      && s.log[0].receipt.operation == "upsert" && s.log[1].receipt.operation == "drop"
  {
    var ops := [Upsert(view, principal, at), Drop(principal, at)];
    assert ops[..1] == [ops[0]] && ops[..1][..0] == [];
    hide ReceiptPreimage, StableViewId, Faithful;
    var one := After(env, clock, key, ops[..1]);
    assert After(env, clock, key, []) == Store(None, []);
    assert StoreAccepts([]);
    assert one == Apply(env, clock, key, Store(None, []), ops[0]);
    assert |one.log| == 1 && one.current == Some(Current(1, view));
    RunIsSound(env, clock, key, ops[..1]);
    StoreAcceptsExactly(env, clock, key, one.log);
  }
}
