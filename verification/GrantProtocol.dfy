/** The governed scan protocol as a state machine: a catalog in which tables are committed to, dropped,
    restored and replaced, policies rewritten and authorization rules changed, while scans are
    prepared for authorization, authorized, planned and granted in separate steps. */
module GrantProtocol {
  import opened Json
  import opened Policy
  import opened RestrictionCodec
  import opened Projection
  import opened Authorization
  import opened AuthorizationLaws
  import opened PolicyBindings
  import opened GovernedScan
  import opened GrantLaws

  /** What stays fixed over a run. */
  datatype System = System(h: Digests, catalog: string, verifier: string -> Option<Verification>, warehouse: string)

  /** The store, the governance engine, and the scans under way: requests made out for the engine,
      capabilities won, and capabilities together with the table record that was then loaded. */
  datatype State = State(
    tables: map<Ident, TableRecord>, dropped: set<Ident>, bindings: Bindings, engine: Engine,
    grants: map<string, Grant>, pending: set<Request>, capabilities: set<Capability>,
    loaded: set<(Capability, TableRecord)>)

  datatype Step =
    | Commit(table: Ident, metadata: Option<Json>, requestHash: string)
    | Drop(table: Ident)
    | Restore(table: Ident)
    | Replace(table: Ident, record: TableRecord)
    | Bind(binding: Binding)
    | Rule(engine: Engine)
    | Prepare(identity: Identity, table: Ident)
    | Authorize(request: Request, now: int)
    | Load(capability: Capability)
    | Plan(capability: Capability, record: TableRecord, scan: Scan, requested: seq<string>, now: int)

  function LoadTable(s: State, t: Ident): Option<TableRecord> {
    if t in s.tables && t !in s.dropped then Some(s.tables[t]) else None
  }

  /** A commit stamps the metadata with the new version and the request's hash. */
  function Stamped(metadata: Json, version: nat, requestHash: string): Json {
    var members := if metadata.Obj? then metadata.members else map[];
    Obj(members[LakecatVersion := Num(version)][LastRequestHash := Str(requestHash)])
  }

  function Committed(record: TableRecord, metadata: Option<Json>, requestHash: string): TableRecord {
    var m := if metadata.Some? then metadata.value else record.metadata;
    TableRecord(record.version + 1, Stamped(m, record.version + 1, requestHash))
  }

  ghost function BindingsOf(s: State, t: Ident): seq<Binding> {
    BindingsFor(s.bindings, t)
  }

  ghost function AuthorityOf(sys: System, s: State): Authority {
    Authority(sys.verifier, t => BindingsOf(s, t), sys.warehouse)
  }

  /** One step; a request that fails changes nothing. */
  ghost function Apply(sys: System, s: State, step: Step): State {
    match step
    case Commit(t, metadata, requestHash) =>
      if LoadTable(s, t).None? then s
      else s.(tables := s.tables[t := Committed(s.tables[t], metadata, requestHash)])
    case Drop(t) => if LoadTable(s, t).None? then s else s.(dropped := s.dropped + {t})
    case Restore(t) => s.(dropped := s.dropped - {t})
    case Replace(t, record) => s.(tables := s.tables[t := record], dropped := s.dropped - {t})
    case Bind(b) => s.(bindings := s.bindings[KeyOf(b) := b])
    case Rule(engine) => s.(engine := engine)
    case Prepare(identity, t) =>
      var request := Prepared(sys.h.base, AuthorityOf(sys, s), identity, TablePlanScan, Some(t), []);
      if request.None? then s else s.(pending := s.pending + {request.value})
    case Authorize(request, now) =>
      var cap := Won(sys.h.base, s.engine, request, now);
      if request !in s.pending || cap.None? then s else s.(capabilities := s.capabilities + {cap.value})
    case Load(cap) =>
      var record := LoadTable(s, cap.table);
      if cap !in s.capabilities || record.None? then s else s.(loaded := s.loaded + {(cap, record.value)})
    case Plan(cap, record, scan, requested, now) =>
      var grant := PlanScan(sys.h, sys.catalog, cap, record, scan, requested, now);
      if (cap, record) !in s.loaded || grant.None? || grant.value.None? then s
      else
        var saved := SaveGrant(sys.h, s.grants, grant.value.value);
        if saved.None? then s else s.(grants := saved.value.0)
  }

  /** The state after the steps. */
  ghost function After(sys: System, s: State, steps: seq<Step>): State {
    if steps == [] then s else Apply(sys, After(sys, s, steps[..|steps| - 1]), steps[|steps| - 1])
  }

  /** The state at moment `n` of a run. */
  ghost function At(sys: System, s: State, steps: seq<Step>, n: nat): State
    requires n <= |steps|
  {
    After(sys, s, steps[..n])
  }

  lemma NextMoment(sys: System, s: State, steps: seq<Step>, n: nat)
    requires n < |steps|
    ensures At(sys, s, steps, n + 1) == Apply(sys, At(sys, s, steps, n), steps[n])
  {
    assert steps[..n + 1][..n] == steps[..n];
  }

  /** A start with no scan under way and no grant given. */
  predicate Fresh(s: State) {
    s.grants == map[] && s.pending == {} && s.capabilities == {} && s.loaded == {}
  }

  // ---- where things come from ----

  /** The request was made out at moment `p`, with the policies of that moment. */
  ghost predicate PreparedAt(sys: System, s: State, steps: seq<Step>, p: nat, request: Request) {
    && p < |steps| && steps[p].Prepare?
    && Prepared(sys.h.base, AuthorityOf(sys, At(sys, s, steps, p)), steps[p].identity, TablePlanScan,
                Some(steps[p].table), []) == Some(request)
  }

  lemma {:induction false} RequestOrigin(sys: System, s: State, steps: seq<Step>, n: nat, request: Request)
    requires Fresh(s) && n <= |steps| && request in At(sys, s, steps, n).pending
    ensures exists p: nat :: p < n && PreparedAt(sys, s, steps, p, request)
    decreases n
  {
    hide Apply, PreparedAt;
    if n > 0 {
      NextMoment(sys, s, steps, n - 1);
      if request in At(sys, s, steps, n - 1).pending {
        RequestOrigin(sys, s, steps, n - 1, request);
      } else {
        NewRequest(sys, s, steps, n - 1, request);
      }
    }
  }

  lemma NewRequest(sys: System, s: State, steps: seq<Step>, p: nat, request: Request)
    requires p < |steps| && request !in At(sys, s, steps, p).pending
    requires request in Apply(sys, At(sys, s, steps, p), steps[p]).pending
    ensures PreparedAt(sys, s, steps, p, request)
  {
    hide At, Prepared, Won, PlanScan, SaveGrant, AuthorityOf, Committed, LoadTable;
  }

  /** The engine of moment `i` answered the request, and the capability was won. */
  ghost predicate WonAt(sys: System, s: State, steps: seq<Step>, i: nat, request: Request, cap: Capability) {
    && i < |steps| && steps[i].Authorize? && steps[i].request == request
    && request in At(sys, s, steps, i).pending
    && Won(sys.h.base, At(sys, s, steps, i).engine, request, steps[i].now) == Some(cap)
  }

  lemma {:induction false} CapabilityOrigin(sys: System, s: State, steps: seq<Step>, n: nat, cap: Capability)
    requires Fresh(s) && n <= |steps| && cap in At(sys, s, steps, n).capabilities
    ensures exists i: nat, request :: i < n && WonAt(sys, s, steps, i, request, cap)
    decreases n
  {
    hide Apply, WonAt;
    if n > 0 {
      NextMoment(sys, s, steps, n - 1);
      if cap in At(sys, s, steps, n - 1).capabilities {
        CapabilityOrigin(sys, s, steps, n - 1, cap);
      } else {
        NewCapability(sys, s, steps, n - 1, cap);
      }
    }
  }

  lemma NewCapability(sys: System, s: State, steps: seq<Step>, i: nat, cap: Capability)
    requires i < |steps| && cap !in At(sys, s, steps, i).capabilities
    requires cap in Apply(sys, At(sys, s, steps, i), steps[i]).capabilities
    ensures exists request :: WonAt(sys, s, steps, i, request, cap)
  {
    hide At, Prepared, Won, PlanScan, SaveGrant, AuthorityOf, Committed, LoadTable;
    assert WonAt(sys, s, steps, i, steps[i].request, cap);
  }

  /** The table record was loaded under the capability at moment `j`. */
  ghost predicate LoadedAt(sys: System, s: State, steps: seq<Step>, j: nat, cap: Capability, record: TableRecord) {
    && j < |steps| && cap in At(sys, s, steps, j).capabilities
    && LoadTable(At(sys, s, steps, j), cap.table) == Some(record)
  }

  lemma {:induction false} LoadOrigin(sys: System, s: State, steps: seq<Step>, n: nat, cap: Capability,
                                      record: TableRecord)
    requires Fresh(s) && n <= |steps| && (cap, record) in At(sys, s, steps, n).loaded
    ensures exists j: nat :: j < n && LoadedAt(sys, s, steps, j, cap, record)
    decreases n
  {
    hide Apply, LoadedAt;
    if n > 0 {
      NextMoment(sys, s, steps, n - 1);
      if (cap, record) in At(sys, s, steps, n - 1).loaded {
        LoadOrigin(sys, s, steps, n - 1, cap, record);
      } else {
        NewLoad(sys, s, steps, n - 1, cap, record);
      }
    }
  }

  lemma NewLoad(sys: System, s: State, steps: seq<Step>, j: nat, cap: Capability, record: TableRecord)
    requires j < |steps| && (cap, record) !in At(sys, s, steps, j).loaded
    requires (cap, record) in Apply(sys, At(sys, s, steps, j), steps[j]).loaded
    ensures LoadedAt(sys, s, steps, j, cap, record)
  {
    hide At, Prepared, Won, PlanScan, SaveGrant, AuthorityOf, Committed, LoadTable;
  }

  /** The grant was planned and saved at moment `k`. */
  ghost predicate PlannedAt(sys: System, s: State, steps: seq<Step>, k: nat, cap: Capability, record: TableRecord,
                            g: Grant)
  {
    && k < |steps| && steps[k].Plan? && steps[k].capability == cap && steps[k].record == record
    && (cap, record) in At(sys, s, steps, k).loaded
    && PlanScan(sys.h, sys.catalog, cap, record, steps[k].scan, steps[k].requested, steps[k].now) == Some(Some(g))
  }

  lemma {:induction false} GrantOrigin(sys: System, s: State, steps: seq<Step>, n: nat, id: string)
    requires Fresh(s) && n <= |steps| && id in At(sys, s, steps, n).grants
    ensures var g := At(sys, s, steps, n).grants[id];
      && g.proof.grantId == id
      && exists k: nat, cap, record :: k < n && PlannedAt(sys, s, steps, k, cap, record, g)
    decreases n
  {
    hide Prepared, Won, PlanScan, AuthorityOf, Committed, ValidGrant, SameStableEvidence;
    if n > 0 {
      NextMoment(sys, s, steps, n - 1);
      var before := At(sys, s, steps, n - 1);
      hide At, PlannedAt;
      if id in before.grants {
        GrantOrigin(sys, s, steps, n - 1, id);
        GrantsStay(sys, before, steps[n - 1], id);
      } else {
        NewGrant(sys, s, steps, n - 1, id);
      }
    }
  }

  lemma GrantsStay(sys: System, s: State, step: Step, id: string)
    requires id in s.grants
    ensures id in Apply(sys, s, step).grants && Apply(sys, s, step).grants[id] == s.grants[id]
  {
    hide Prepared, Won, PlanScan, AuthorityOf, Committed, ValidGrant, SameStableEvidence, LoadTable;
  }

  lemma NewGrant(sys: System, s: State, steps: seq<Step>, k: nat, id: string)
    requires k < |steps| && id !in At(sys, s, steps, k).grants
    requires id in Apply(sys, At(sys, s, steps, k), steps[k]).grants
    ensures var g := Apply(sys, At(sys, s, steps, k), steps[k]).grants[id];
      g.proof.grantId == id && exists cap, record :: PlannedAt(sys, s, steps, k, cap, record, g)
  {
    hide At, Prepared, Won, PlanScan, AuthorityOf, Committed, ValidGrant, SameStableEvidence, LoadTable;
    var step := steps[k];
    var planned := PlanScan(sys.h, sys.catalog, step.capability, step.record, step.scan, step.requested, step.now);
    var g := planned.value.value;
    assert PlannedAt(sys, s, steps, k, step.capability, step.record, g);
  }

  /** Stored grants are never replaced or removed. */
  lemma {:induction false} GrantsAreKept(sys: System, s: State, steps: seq<Step>, n: nat, m: nat, id: string)
    requires n <= m <= |steps| && id in At(sys, s, steps, n).grants
    ensures id in At(sys, s, steps, m).grants && At(sys, s, steps, m).grants[id] == At(sys, s, steps, n).grants[id]
    decreases m
  {
    hide Apply;
    if n < m {
      GrantsAreKept(sys, s, steps, n, m - 1, id);
      NextMoment(sys, s, steps, m - 1);
      GrantsStay(sys, At(sys, s, steps, m - 1), steps[m - 1], id);
      hide At;
    }
  }

  // ---- versions ----

  predicate Replaces(step: Step, t: Ident) {
    step.Replace? && step.table == t
  }

  /** A table's version only grows, unless the table is replaced by another. */
  lemma {:induction false} VersionsGrow(sys: System, s: State, steps: seq<Step>, n: nat, m: nat, t: Ident)
    requires n <= m <= |steps| && t in At(sys, s, steps, n).tables
    ensures t in At(sys, s, steps, m).tables
    ensures || At(sys, s, steps, n).tables[t].version <= At(sys, s, steps, m).tables[t].version
            || exists i :: n <= i < m && Replaces(steps[i], t)
    decreases m
  {
    hide Apply, Replaces;
    if n < m {
      VersionsGrow(sys, s, steps, n, m - 1, t);
      NextMoment(sys, s, steps, m - 1);
      VersionGrows(sys, At(sys, s, steps, m - 1), steps[m - 1], t);
      hide At;
    }
  }

  lemma VersionGrows(sys: System, s: State, step: Step, t: Ident)
    requires t in s.tables
    ensures t in Apply(sys, s, step).tables
    ensures Replaces(step, t) || s.tables[t].version <= Apply(sys, s, step).tables[t].version
  {
    hide Prepared, Won, PlanScan, SaveGrant, AuthorityOf, LoadTable, Stamped;
  }

  // ---- revalidation over runs ----

  /** What a revalidation sees whose four reads happen at four moments of the run. */
  ghost function Seen(sys: System, s: State, steps: seq<Step>, t: Ident, a: nat, b: nat, c: nat, d: nat, now: int)
    : Reading
    requires a <= b <= c <= d <= |steps|
  {
    Reading(At(sys, s, steps, a).grants, LoadTable(At(sys, s, steps, b), t), BindingsOf(At(sys, s, steps, c), t),
            At(sys, s, steps, d).engine, now)
  }

  /** No two values of the run whose digests a revalidation may compare are confused. */
  ghost predicate DigestsTell(sys: System, s: State, steps: seq<Step>) {
    && (forall i: nat, j: nat, t :: i <= |steps| && j <= |steps|
          && t in At(sys, s, steps, i).tables && t in At(sys, s, steps, j).tables
          ==> Tells(sys.h.metadata, At(sys, s, steps, i).tables[t].metadata, At(sys, s, steps, j).tables[t].metadata))
    && (forall i: nat, j: nat, cap, r :: i <= |steps| && j <= |steps| && cap in At(sys, s, steps, i).capabilities
          && RestrictionOf(sys.h.base, BindingsOf(At(sys, s, steps, j), cap.table)) == Some(r)
          ==> Tells(sys.h.restriction, r, cap.restriction))
  }

  /** How a grant came about: its scan was prepared at moment `p` and authorized at `i`, the table loaded at `j`,
      and the grant planned at `k`. */
  datatype Past = Past(p: nat, i: nat, j: nat, k: nat, request: Request, cap: Capability, record: TableRecord)

  ghost predicate History(sys: System, s: State, steps: seq<Step>, past: Past, g: Grant) {
    && past.p < past.i < past.j < past.k < |steps|
    && PreparedAt(sys, s, steps, past.p, past.request)
    && WonAt(sys, s, steps, past.i, past.request, past.cap)
    && LoadedAt(sys, s, steps, past.j, past.cap, past.record)
    && PlannedAt(sys, s, steps, past.k, past.cap, past.record, g)
  }

  lemma GrantHistory(sys: System, s: State, steps: seq<Step>, a: nat, id: string)
    requires Fresh(s) && a <= |steps| && id in At(sys, s, steps, a).grants
    ensures exists past: Past :: past.k < a && History(sys, s, steps, past, At(sys, s, steps, a).grants[id])
  {
    hide At, PreparedAt, WonAt, LoadedAt, PlanScan;
    GrantOrigin(sys, s, steps, a, id);
    var g := At(sys, s, steps, a).grants[id];
    var k: nat, cap, record :| k < a && PlannedAt(sys, s, steps, k, cap, record, g);
    LoadOrigin(sys, s, steps, k, cap, record);
    var j: nat :| j < k && LoadedAt(sys, s, steps, j, cap, record);
    assert cap in At(sys, s, steps, j).capabilities by { LoadedMeans(sys, s, steps, j, cap, record); }
    CapabilityOrigin(sys, s, steps, j, cap);
    var i: nat, request :| i < j && WonAt(sys, s, steps, i, request, cap);
    assert request in At(sys, s, steps, i).pending by { WonMeans(sys, s, steps, i, request, cap); }
    RequestOrigin(sys, s, steps, i, request);
    var p: nat :| p < i && PreparedAt(sys, s, steps, p, request);
    assert History(sys, s, steps, Past(p, i, j, k, request, cap, record), g);
  }

  lemma WonMeans(sys: System, s: State, steps: seq<Step>, i: nat, request: Request, cap: Capability)
    requires WonAt(sys, s, steps, i, request, cap)
    ensures i < |steps| && request in At(sys, s, steps, i).pending
  {
  }

  lemma LoadedMeans(sys: System, s: State, steps: seq<Step>, j: nat, cap: Capability, record: TableRecord)
    requires LoadedAt(sys, s, steps, j, cap, record)
    ensures j < |steps| && cap in At(sys, s, steps, j).capabilities
    ensures LoadTable(At(sys, s, steps, j), cap.table) == Some(record)
  {
  }

  /** What must be unchanged for a proof to be good: the record read at `b` is the one loaded for it, and
      the policies of `c` compose to the restriction, purpose and projection the proof was planned with. */
  ghost predicate StillBound(sys: System, s: State, steps: seq<Step>, past: Past, b: nat, c: nat, g: Grant)
    requires past.j <= |steps| && b <= |steps| && c <= |steps|
  {
    var e, cap, record := g.proof.evidence, past.cap, past.record;
    && e.table == cap.table && e.tableVersion == record.version && CurrentSnapshot(record) == Some(e.snapshotId)
    && LoadTable(At(sys, s, steps, past.j), e.table) == Some(record)
    && LoadTable(At(sys, s, steps, b), e.table) == Some(record)
    && RestrictionOf(sys.h.base, BindingsOf(At(sys, s, steps, c), e.table)) == Some(cap.restriction)
    && cap.restriction.purpose == Some(e.purpose)
    && EffectiveProjection(cap.restriction, g.requested) == Some(e.projection)
  }

  /** The engine allows the principal to scan the table, at least in some context. */
  ghost predicate Allows(engine: Engine, p: Principal, t: Ident, now: int) {
    exists context :: var answer := engine(Request(p, TablePlanScan, Some(t), context), now);
      answer.Some? && answer.value.allowed
  }

  /** In every run, whenever a revalidation succeeds — its reads spread over the run in any way — the
      proof was granted earlier in that run, for a scan prepared, authorized, loaded and planned in that order;
      the table record is the one loaded for it, whatever commits came between; the current policies compose
      to the restriction it was authorized under; and the engine of the last read allows the scan. */
  lemma SuccessMeansCurrent(sys: System, s: State, steps: seq<Step>, p: Proof, a: nat, b: nat, c: nat, d: nat, now: int)
    requires Fresh(s) && a <= b <= c <= d <= |steps| && DigestsTell(sys, s, steps)
    requires Revalidate(sys.h, sys.catalog, p, Seen(sys, s, steps, p.evidence.table, a, b, c, d, now)).Some?
    ensures p.grantId in At(sys, s, steps, a).grants
    ensures var g := At(sys, s, steps, a).grants[p.grantId];
      && g.proof == p
      && (exists past: Past :: past.k < a && History(sys, s, steps, past, g)
            && StillBound(sys, s, steps, past, b, c, g))
      && Allows(At(sys, s, steps, d).engine, g.principal, p.evidence.table, now)
  {
    hide At, Revalidate, DigestsTell, BindingsFor, RestrictionOf, TableEvidenceHolds, RestrictionHolds;
    var seen := Seen(sys, s, steps, p.evidence.table, a, b, c, d, now);
    SuccessShows(sys.h, sys.catalog, p, seen);
    GrantHistory(sys, s, steps, a, p.grantId);
    var g := At(sys, s, steps, a).grants[p.grantId];
    var past: Past :| past.k < a && History(sys, s, steps, past, g);
    BoundSince(sys, s, steps, past, g, b, c);
    assert StillBound(sys, s, steps, past, b, c, g);
    hide History, StillBound, Seen;
    AllowsFresh(At(sys, s, steps, d).engine, g, RestrictionOf(sys.h.base, seen.bindings).value, seen.bindings, now);
  }

  lemma AllowsFresh(engine: Engine, g: Grant, r: Restriction, bindings: seq<Binding>, now: int)
    requires var answer := engine(FreshRequest(g, r, bindings), now); answer.Some? && answer.value.allowed
    ensures Allows(engine, g.principal, g.proof.evidence.table, now)
  {
    hide FreshContext;
    var context := FreshContext(g, r, bindings);
    assert FreshRequest(g, r, bindings) == Request(g.principal, TablePlanScan, Some(g.proof.evidence.table), context);
  }

  lemma BoundSince(sys: System, s: State, steps: seq<Step>, past: Past, g: Grant, b: nat, c: nat)
    requires History(sys, s, steps, past, g) && DigestsTell(sys, s, steps)
    requires b <= |steps| && c <= |steps|
    requires var t := g.proof.evidence.table;
      && LoadTable(At(sys, s, steps, b), t).Some?
      && TableEvidenceHolds(sys.h, g, LoadTable(At(sys, s, steps, b), t).value)
      && RestrictionOf(sys.h.base, BindingsOf(At(sys, s, steps, c), t)).Some?
      && RestrictionHolds(sys.h, g, RestrictionOf(sys.h.base, BindingsOf(At(sys, s, steps, c), t)).value)
    ensures StillBound(sys, s, steps, past, b, c, g)
  {
    hide At, PreparedAt, WonAt, PlanScan, TableEvidenceHolds, RestrictionHolds, BindingsOf, RestrictionOf,
      EffectiveProjection, CurrentSnapshot;
    var cap, record, planned := past.cap, past.record, steps[past.k];
    IssuedGrantBinds(sys.h, sys.catalog, cap, record, planned.scan, planned.requested, planned.now, g);
    var t := g.proof.evidence.table;
    var current := LoadTable(At(sys, s, steps, b), t).value;
    assert t in At(sys, s, steps, b).tables && t in At(sys, s, steps, past.j).tables;
    assert Tells(sys.h.metadata, current.metadata, record.metadata);
    TableExactly(sys.h, sys.catalog, cap, record, planned.requested, g, current);
    var r := RestrictionOf(sys.h.base, BindingsOf(At(sys, s, steps, c), t)).value;
    assert Tells(sys.h.restriction, r, cap.restriction);
    RestrictionExactly(sys.h, sys.catalog, cap, record, planned.requested, g, r);
    hide ValidGrant, Tells, DigestsTell;
  }

  /** Once the table's version has moved past the bound one, the grant is dead for good: a revalidation that
      reads the table later succeeds only if the table has been replaced by another in the meantime. */
  lemma DeadOnceMoved(sys: System, s: State, steps: seq<Step>, p: Proof, n: nat, a: nat, b: nat, c: nat, d: nat,
                      now: int)
    requires a <= b <= c <= d <= |steps| && n <= b
    requires p.evidence.table in At(sys, s, steps, n).tables
    requires At(sys, s, steps, n).tables[p.evidence.table].version > p.evidence.tableVersion
    ensures Revalidate(sys.h, sys.catalog, p, Seen(sys, s, steps, p.evidence.table, a, b, c, d, now)).Some? ==>
              exists i :: n <= i < b && Replaces(steps[i], p.evidence.table)
  {
    hide At, Revalidate, BindingsOf, RestrictionOf, RestrictionHolds, FreshRequest;
    if forall i :: n <= i < b ==> !Replaces(steps[i], p.evidence.table) {
      VersionsGrow(sys, s, steps, n, b, p.evidence.table);
      SuccessShows(sys.h, sys.catalog, p, Seen(sys, s, steps, p.evidence.table, a, b, c, d, now));
    }
  }

  /** In particular, a successful commit to the table kills every grant that binds its current version. */
  lemma CommitKills(sys: System, s: State, steps: seq<Step>, p: Proof, n: nat, a: nat, b: nat, c: nat, d: nat, now: int)
    requires a <= b <= c <= d <= |steps| && n < b && steps[n].Commit? && steps[n].table == p.evidence.table
    requires LoadTable(At(sys, s, steps, n), p.evidence.table).Some?
    requires LoadTable(At(sys, s, steps, n), p.evidence.table).value.version == p.evidence.tableVersion
    ensures Revalidate(sys.h, sys.catalog, p, Seen(sys, s, steps, p.evidence.table, a, b, c, d, now)).Some? ==>
              exists i :: n < i < b && Replaces(steps[i], p.evidence.table)
  {
    NextMoment(sys, s, steps, n);
    hide At, Revalidate, Seen, Stamped;
    DeadOnceMoved(sys, s, steps, p, n + 1, a, b, c, d, now);
  }

  /** What a scan prepared at one moment and authorized at a later one won: as if the later engine had been asked
      at the earlier moment. */
  lemma CapabilityHistory(sys: System, s: State, steps: seq<Step>, past: Past, g: Grant)
    requires History(sys, s, steps, past, g)
    ensures steps[past.p].Prepare? && steps[past.i].Authorize? && past.cap.table == steps[past.p].table
    ensures var h, authority := sys.h.base, AuthorityOf(sys, At(sys, s, steps, past.p));
      var identity, t, now := steps[past.p].identity, steps[past.p].table, steps[past.i].now;
      && Prepared(h, authority, identity, TablePlanScan, Some(t), []) == Some(past.request)
      && AuthorizeRead(h, authority, At(sys, s, steps, past.i).engine, identity, TablePlanScan, t, now)
         == Some(past.cap)
  {
    hide At, Decided, DecodeRestriction, VerifyTypedid, ContextRestriction, Context, LoadedAt, PlannedAt;
  }
}
