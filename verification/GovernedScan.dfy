/** Governed scan grants: their evidence, how they are issued and stored, and how they are revalidated.

    `None` as an outcome is an error return. */
module GovernedScan {
  import opened Json
  import opened Text
  import opened Names
  import opened Policy
  import opened RestrictionCodec
  import opened Projection
  import opened Authorization

  // ---- canonical values ----

  const DIGEST_PREFIX := "sha256:"
  const MAX_TEXT_BYTES: nat := 4 * 1024
  const MAX_PROJECTION_FIELDS: nat := 256
  const MAX_PROJECTION_BYTES: nat := 64 * 1024
  const MAX_NAMESPACE_COMPONENTS: nat := 256
  const MAX_NAMESPACE_BYTES: nat := 64 * 1024

  predicate IsLowerHexDigit(c: char) {
    '0' <= c <= '9' || 'a' <= c <= 'f'
  }

  predicate CanonicalDigest(s: string) {
    |s| == 71 && DIGEST_PREFIX <= s && forall i :: 7 <= i < 71 ==> IsLowerHexDigit(s[i])
  }

  /** What the digest functions return. */
  type Digest = s: string | CanonicalDigest(s)
    witness DIGEST_PREFIX + seq(64, _ => '0')

  predicate IsControl(c: char) {
    c <= '\U{001F}' || '\U{007F}' <= c <= '\U{009F}'
  }

  function Utf8Length(s: string): nat {
    if s == "" then 0
    else
      Utf8Length(s[..|s| - 1])
      + (if s[|s| - 1] < '\U{0080}' then 1 else if s[|s| - 1] < '\U{0800}' then 2
         else if s[|s| - 1] < '\U{10000}' then 3 else 4)
  }

  predicate CanonicalText(s: string) {
    s != "" && Utf8Length(s) <= MAX_TEXT_BYTES && s == Trim(s) && forall c :: c in s ==> !IsControl(c)
  }

  function TotalLength(parts: seq<string>): nat {
    if parts == [] then 0 else TotalLength(parts[..|parts| - 1]) + Utf8Length(parts[|parts| - 1])
  }

  predicate WithinBudget(parts: seq<string>, maximum: nat) {
    (forall p :: p in parts ==> CanonicalText(p)) && TotalLength(parts) <= maximum
  }

  predicate CanonicalTable(t: Ident) {
    && CanonicalText(t.warehouse) && CanonicalText(t.name) && ValidName(t.warehouse) && ValidName(t.name)
    && 0 < |t.namespace| <= MAX_NAMESPACE_COMPONENTS && WithinBudget(t.namespace, MAX_NAMESPACE_BYTES)
    && forall p :: p in t.namespace ==> ValidName(p)
  }

  predicate CanonicalProjection(fields: seq<string>, mayBeEmpty: bool) {
    if fields == [] then mayBeEmpty
    else
      && |fields| <= MAX_PROJECTION_FIELDS && WithinBudget(fields, MAX_PROJECTION_BYTES)
      && |set f | f in fields| == |fields|
  }

  // ---- proofs ----

  const PROOF_VERSION := "lakecat.governed-scan-proof.v2"

  datatype Evidence = Evidence(
    catalog: string, table: Ident, tableVersion: nat, snapshotId: int, planTasks: string, subject: string,
    purpose: string, projection: seq<string>, identity: string, authorization: string, policy: string)

  datatype Proof = Proof(version: string, grantId: string, evidence: Evidence)

  predicate ValidEvidence(e: Evidence) {
    && e.snapshotId >= 0 && CanonicalText(e.catalog) && CanonicalTable(e.table) && CanonicalText(e.subject)
    && CanonicalText(e.purpose) && CanonicalProjection(e.projection, false)
    && CanonicalDigest(e.planTasks) && CanonicalDigest(e.identity) && CanonicalDigest(e.authorization)
    && CanonicalDigest(e.policy)
  }

  /** What a policy decision digest covers: the receipt without its context and time. */
  datatype PolicyDecision = PolicyDecision(
    principal: Principal, action: Action, table: Option<Ident>, allowed: bool, engine: string,
    policyHash: Option<string>, restriction: Restriction)

  /** The digests, one function for each domain. */
  datatype Digests = Digests(
    base: Hasher, proof: Evidence -> Digest, planTasks: seq<Json> -> Digest, identity: Json -> Digest,
    authorization: Receipt -> Digest, policy: PolicyDecision -> Digest, policyHash: string -> Digest,
    context: Json -> Digest, restriction: Restriction -> Digest, metadata: Json -> Digest)

  function IssueProof(h: Digests, e: Evidence): Option<Proof> {
    if ValidEvidence(e) then Some(Proof(PROOF_VERSION, h.proof(e), e)) else None
  }

  predicate ValidStructure(p: Proof) {
    p.version == PROOF_VERSION && CanonicalDigest(p.grantId) && ValidEvidence(p.evidence)
  }

  predicate Intact(h: Digests, p: Proof) {
    ValidStructure(p) && h.proof(p.evidence) == p.grantId
  }

  // ---- grants ----

  datatype Grant = Grant(
    proof: Proof, principal: Principal, requested: seq<string>, engine: string, policyHash: Option<string>,
    context: string, restriction: string, metadata: string, issuedAt: int)

  predicate ValidGrant(h: Digests, g: Grant) {
    && CanonicalText(g.principal.subject) && CanonicalText(g.engine) && CanonicalProjection(g.requested, true)
    && CanonicalDigest(g.context) && CanonicalDigest(g.restriction) && CanonicalDigest(g.metadata)
    && (g.policyHash.Some? ==> CanonicalDigest(g.policyHash.value))
    && Intact(h, g.proof) && g.principal.subject == g.proof.evidence.subject
  }

  predicate SameStableEvidence(g: Grant, g': Grant) {
    g.(issuedAt := g'.issuedAt) == g'
  }

  /** The stored grants, and the grant that is stored, after saving one. */
  function SaveGrant(h: Digests, grants: map<string, Grant>, g: Grant): Option<(map<string, Grant>, Grant)> {
    var id := g.proof.grantId;
    if !ValidGrant(h, g) then None
    else if id !in grants then Some((grants[id := g], g))
    else if SameStableEvidence(grants[id], g) then Some((grants, grants[id]))
    else None
  }

  function LoadGrant(h: Digests, grants: map<string, Grant>, id: string): Option<Grant> {
    if CanonicalDigest(id) && id in grants && ValidGrant(h, grants[id]) then Some(grants[id]) else None
  }

  // ---- issuing ----

  /** The evidence in a table record that a grant binds. */
  datatype TableRecord = TableRecord(version: nat, metadata: Json)

  function CurrentSnapshot(t: TableRecord): Option<int> {
    var id :- Member(t.metadata, CurrentSnapshotId); AsI64(id)
  }

  datatype IdentityCheck = Verified(identity: Json) | Unattested | Rejected

  function ReadKind(v: Option<Json>): Option<PrincipalKind> {
    var j :- v;
    var s :- AsStr(j);
    if s == "anonymous" then Some(Anonymous) else if s == "human" then Some(Human)
    else if s == "service" then Some(Service) else if s == "agent" then Some(Agent) else None
  }

  function ReadPrincipal(v: Option<Json>): Option<Principal> {
    var j :- v;
    var subject :- Member(j, DSubject);
    var s :- AsStr(subject);
    var kind :- ReadKind(Member(j, DKind));
    Some(Principal(s, kind))
  }

  function CheckIdentity(receipt: Receipt): IdentityCheck {
    var identity := Member(receipt.context, RequestIdentityKey);
    if identity.None? then Rejected else
    var principal := ReadPrincipal(Member(identity.value, DPrincipal));
    if principal != Some(receipt.principal) then Rejected
    else if receipt.principal.kind.Agent? && Member(identity.value, AttestationState) != Some(Str("verified"))
    then Unattested
    else Verified(identity.value)
  }

  function DecisionOf(receipt: Receipt, r: Restriction): PolicyDecision {
    PolicyDecision(receipt.principal, receipt.action, receipt.table, receipt.allowed, receipt.engine,
                   receipt.policyHash, r)
  }

  /** A planned scan, as the planner returns it. */
  datatype Scan = Scan(snapshotId: Option<int>, tasks: seq<Json>)

  function EvidenceFor(h: Digests, catalog: string, cap: Capability, table: TableRecord, snapshotId: int, scan: Scan,
                       purpose: string, effective: seq<string>, identity: Json): Evidence
  {
    Evidence(catalog, cap.table, table.version, snapshotId, h.planTasks(scan.tasks), cap.receipt.principal.subject,
             purpose, effective, h.identity(identity), h.authorization(cap.receipt),
             h.policy(DecisionOf(cap.receipt, cap.restriction)))
  }

  /** The grant for a planned scan; `Some(None)` when there is none to issue: no purpose is declared, or
      an agent's identity was not verified. */
  function IssueGrant(h: Digests, catalog: string, cap: Capability, table: TableRecord, scan: Scan,
                      requested: seq<string>, effective: seq<string>, now: int): Option<Option<Grant>>
  {
    if cap.restriction.purpose.None? then Some(None) else
    var snapshotId :- scan.snapshotId;
    if CurrentSnapshot(table) != Some(snapshotId) then None else
    match CheckIdentity(cap.receipt)
    case Unattested => Some(None)
    case Rejected => None
    case Verified(identity) =>
      var proof :- IssueProof(h, EvidenceFor(h, catalog, cap, table, snapshotId, scan, cap.restriction.purpose.value,
                                             effective, identity));
      var hash := cap.receipt.policyHash;
      var g := Grant(proof, cap.receipt.principal, requested, cap.receipt.engine,
                     if hash.Some? then Some(h.policyHash(hash.value)) else None,
                     h.context(cap.receipt.context), h.restriction(cap.restriction), h.metadata(table.metadata), now);
      if ValidGrant(h, g) then Some(Some(g)) else None
  }

  /** Planning under a capability: the request is narrowed first, and the grant binds both lists. */
  function PlanScan(h: Digests, catalog: string, cap: Capability, table: TableRecord, scan: Scan,
                    requested: seq<string>, now: int): Option<Option<Grant>>
  {
    var effective :- EffectiveProjection(cap.restriction, requested);
    IssueGrant(h, catalog, cap, table, scan, requested, effective, now)
  }

  // ---- revalidating ----

  predicate TableEvidenceHolds(h: Digests, g: Grant, table: TableRecord) {
    && CurrentSnapshot(table) == Some(g.proof.evidence.snapshotId)
    && table.version == g.proof.evidence.tableVersion
    && h.metadata(table.metadata) == g.metadata
  }

  predicate RestrictionHolds(h: Digests, g: Grant, r: Restriction) {
    && r.purpose == Some(g.proof.evidence.purpose)
    && EffectiveProjection(r, g.requested) == Some(g.proof.evidence.projection)
    && h.restriction(r) == g.restriction
  }

  function FreshContext(g: Grant, r: Restriction, bindings: seq<Binding>): Object {
    map[Warehouse := Str(g.proof.evidence.table.warehouse),
        RequestIdentityKey := Obj(map[
          DPrincipal := PrincipalJson(g.principal),
          AttestationState := Str("governed-scan-revalidation"),
          OriginalContextDigest := Str(g.context)]),
        PolicyBindingsKey := BindingsJson(bindings),
        DReadRestriction := Obj(EncodeRestriction(r)),
        GrantId := Str(g.proof.grantId)]
  }

  function FreshRequest(g: Grant, r: Restriction, bindings: seq<Binding>): Request {
    Request(g.principal, TablePlanScan, Some(g.proof.evidence.table), FreshContext(g, r, bindings))
  }

  /** The receipt lets the table be scanned, under the given restriction. */
  predicate Carries(receipt: Receipt, t: Ident, r: Restriction) {
    var cap := ReadCapability(receipt, t, TablePlanScan);
    cap.Some? && cap.value.restriction == r
  }

  predicate PolicyHolds(h: Digests, g: Grant, receipt: Receipt, r: Restriction) {
    && receipt.principal == g.principal && receipt.action == TablePlanScan
    && receipt.table == Some(g.proof.evidence.table)
    && Carries(receipt, g.proof.evidence.table, r)
    && h.policy(DecisionOf(receipt, r)) == g.proof.evidence.policy
  }

  datatype Revalidated = Revalidated(proof: Proof, freshAuthorization: Digest, freshPolicy: Digest)

  /** What a revalidation reads, one call after the other: the grants, the table, the bindings and the
      engine's answer. */
  datatype Reading = Reading(
    grants: map<string, Grant>, table: Option<TableRecord>, bindings: seq<Binding>, engine: Engine, now: int)

  function Revalidate(h: Digests, catalog: string, presented: Proof, seen: Reading): Option<Revalidated> {
    if !Intact(h, presented) || presented.evidence.catalog != catalog then None else
    var g :- LoadGrant(h, seen.grants, presented.grantId);
    if g.proof != presented then None else
    var table :- seen.table;
    if !TableEvidenceHolds(h, g, table) then None else
    var r :- RestrictionOf(h.base, seen.bindings);
    var receipt :- Decided(h.base, seen.engine, FreshRequest(g, r, seen.bindings), seen.now);
    if RestrictionHolds(h, g, r) && PolicyHolds(h, g, receipt, r)
    then Some(Revalidated(g.proof, h.authorization(receipt), h.policy(DecisionOf(receipt, r))))
    else None
  }
}
