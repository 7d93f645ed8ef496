/** When a governed scan grant revalidates. */
module GrantLaws {
  import opened Json
  import opened Text
  import opened Collections
  import opened Policy
  import opened RestrictionCodec
  import opened Projection
  import opened Authorization
  import opened AuthorizationLaws
  import opened GovernedScan

  /** The digest function does not confuse these two values. */
  ghost predicate Tells<A, B>(digest: A -> B, x: A, y: A) {
    digest(x) == digest(y) ==> x == y
  }

  /** A proof is accepted exactly when issuing its own evidence would give that very proof. */
  lemma AcceptedAsIssued(h: Digests, p: Proof)
    ensures Intact(h, p) <==> IssueProof(h, p.evidence) == Some(p)
  {
    hide ValidEvidence;
    assert CanonicalDigest(h.proof(p.evidence));
    hide CanonicalDigest;
  }

  /** Under a digest that tells their evidence apart, accepted proofs with one grant id are one proof. */
  lemma GrantIdDetermines(h: Digests, p: Proof, q: Proof)
    requires Intact(h, p) && Intact(h, q) && p.grantId == q.grantId
    requires Tells(h.proof, p.evidence, q.evidence)
    ensures p == q
  {
    hide ValidEvidence, CanonicalDigest;
  }

  /** An accepted proof under a stored grant's id is the stored one: the refusal of a differing proof only ever
      meets a digest collision. */
  lemma MismatchIsCollision(h: Digests, grants: map<string, Grant>, presented: Proof)
    requires Intact(h, presented) && LoadGrant(h, grants, presented.grantId).Some?
    requires grants[presented.grantId].proof.grantId == presented.grantId
    requires Tells(h.proof, presented.evidence, grants[presented.grantId].proof.evidence)
    ensures LoadGrant(h, grants, presented.grantId).value.proof == presented
  {
    hide Intact, CanonicalDigest;
    GrantIdDetermines(h, grants[presented.grantId].proof, presented);
  }

  // ---- what a grant binds ----

  /** The grant binds the capability, the table record and the narrowed request it was planned from. */
  ghost predicate Binds(h: Digests, catalog: string, cap: Capability, record: TableRecord, requested: seq<string>,
                        g: Grant)
  {
    var e := g.proof.evidence;
    && ValidGrant(h, g)
    && e.catalog == catalog && e.table == cap.table && e.tableVersion == record.version
    && CurrentSnapshot(record) == Some(e.snapshotId) && g.metadata == h.metadata(record.metadata)
    && cap.restriction.purpose == Some(e.purpose) && g.restriction == h.restriction(cap.restriction)
    && g.requested == requested && EffectiveProjection(cap.restriction, requested) == Some(e.projection)
    && g.principal == cap.receipt.principal && e.policy == h.policy(DecisionOf(cap.receipt, cap.restriction))
  }

  lemma IssuedGrantBinds(h: Digests, catalog: string, cap: Capability, record: TableRecord, scan: Scan,
                         requested: seq<string>, now: int, g: Grant)
    requires PlanScan(h, catalog, cap, record, scan, requested, now) == Some(Some(g))
    ensures Binds(h, catalog, cap, record, requested, g)
    ensures var e := g.proof.evidence; var receipt := cap.receipt;
      && e.subject == receipt.principal.subject && e.authorization == h.authorization(receipt)
      && receipt.context.Obj? && RequestIdentityKey in receipt.context.members
      && e.identity == h.identity(receipt.context.members[RequestIdentityKey])
      && scan.snapshotId == Some(e.snapshotId) && e.planTasks == h.planTasks(scan.tasks)
      && g.engine == receipt.engine && g.context == h.context(receipt.context) && g.issuedAt == now
      && g.policyHash == (if receipt.policyHash.Some? then Some(h.policyHash(receipt.policyHash.value)) else None)
  {
    hide ValidGrant, ValidEvidence, CanonicalDigest, EffectiveProjection, CurrentSnapshot, DecisionOf;
  }

  /** The context's request identity names the receipt's principal. */
  predicate IdentityNamed(receipt: Receipt) {
    var identity := Member(receipt.context, RequestIdentityKey);
    && identity.Some? && Member(identity.value, DPrincipal).Some?
    && NamesPrincipal(Member(identity.value, DPrincipal).value, receipt.principal)
  }

  predicate IdentityAttested(receipt: Receipt) {
    var identity := Member(receipt.context, RequestIdentityKey);
    identity.Some? && Member(identity.value, AttestationState) == Some(Str("verified"))
  }

  lemma PrincipalRead(v: Json, p: Principal)
    ensures ReadPrincipal(Some(v)) == Some(p) <==> NamesPrincipal(v, p)
  {
    assert "anonymous"[0] == 'a' && "agent"[0] == 'a' && "human"[0] == 'h' && "service"[0] == 's';
    assert "anonymous"[1] == 'n' && "agent"[1] == 'g';
  }

  /** Only an agent's identity must be attested. */
  lemma IdentityExactly(receipt: Receipt)
    ensures var identity := Member(receipt.context, RequestIdentityKey);
      && (CheckIdentity(receipt).Verified? <==>
            IdentityNamed(receipt) && (receipt.principal.kind == Agent ==> IdentityAttested(receipt)))
      && (CheckIdentity(receipt).Verified? ==> Some(CheckIdentity(receipt).identity) == identity)
      && (CheckIdentity(receipt).Unattested? <==>
            IdentityNamed(receipt) && receipt.principal.kind == Agent && !IdentityAttested(receipt))
  {
    hide NamesPrincipal, ReadPrincipal, Member;
    var identity := Member(receipt.context, RequestIdentityKey);
    if identity.Some? {
      var named := Member(identity.value, DPrincipal);
      if named.Some? {
        PrincipalRead(named.value, receipt.principal);
      } else {
        NoPrincipalRead();
      }
    }
  }

  lemma NoPrincipalRead()
    ensures ReadPrincipal(None) == None
  {
  }

  /** The plan is of the table's current snapshot. */
  predicate PlansCurrent(record: TableRecord, scan: Scan) {
    && scan.snapshotId.Some? && I64_MIN <= scan.snapshotId.value <= I64_MAX
    && Member(record.metadata, CurrentSnapshotId) == Some(Num(scan.snapshotId.value))
  }

  lemma PlansCurrentExactly(record: TableRecord, scan: Scan)
    ensures PlansCurrent(record, scan) <==> scan.snapshotId.Some? && CurrentSnapshot(record) == scan.snapshotId
  {
    hide Member;
  }

  /** Names and projections fit the canonical forms of a grant. */
  predicate FitsGrant(catalog: string, cap: Capability, requested: seq<string>) {
    && CanonicalText(catalog) && CanonicalTable(cap.table) && CanonicalText(cap.receipt.principal.subject)
    && cap.restriction.purpose.Some? && CanonicalText(cap.restriction.purpose.value)
    && CanonicalText(cap.receipt.engine)
    && EffectiveProjection(cap.restriction, requested).Some?
    && CanonicalProjection(EffectiveProjection(cap.restriction, requested).value, false)
    && CanonicalProjection(requested, true)
  }

  /** Exactly when planning gives a grant: a purpose is declared, the plan is of the current snapshot, the
      identity in the context names the principal and, for an agent, is attested, and all names and projections are
      canonical.  What is digested never stands in the way, nor does the grant's own integrity check. */
  lemma IssuesExactly(h: Digests, catalog: string, cap: Capability, record: TableRecord, scan: Scan,
                      requested: seq<string>, now: int)
    ensures var issued := PlanScan(h, catalog, cap, record, scan, requested, now);
      issued.Some? && issued.value.Some? <==>
        && PlansCurrent(record, scan) && scan.snapshotId.value >= 0
        && IdentityNamed(cap.receipt) && (cap.receipt.principal.kind == Agent ==> IdentityAttested(cap.receipt))
        && FitsGrant(catalog, cap, requested)
  {
    hide CanonicalText, CanonicalTable, CanonicalProjection, EffectiveProjection, CurrentSnapshot, CheckIdentity,
      DecisionOf, IdentityNamed, IdentityAttested, PlansCurrent;
    IdentityExactly(cap.receipt);
    PlansCurrentExactly(record, scan);
    assert forall d: Digest :: CanonicalDigest(d);
    hide CanonicalDigest;
    if cap.restriction.purpose.Some? && scan.snapshotId.Some? && CheckIdentity(cap.receipt).Verified?
       && EffectiveProjection(cap.restriction, requested).Some? {
      var e := EvidenceFor(h, catalog, cap, record, scan.snapshotId.value, scan, cap.restriction.purpose.value,
                           EffectiveProjection(cap.restriction, requested).value, CheckIdentity(cap.receipt).identity);
      AcceptedAsIssued(h, Proof(PROOF_VERSION, h.proof(e), e));
    }
  }

  /** Exactly when a scan is planned without a grant: no purpose is declared, or an agent's identity is named but not
      attested, on a plan of the current snapshot.  Everything else that prevents a grant is an error. */
  lemma NoGrantExactly(h: Digests, catalog: string, cap: Capability, record: TableRecord, scan: Scan,
                       requested: seq<string>, now: int)
    ensures PlanScan(h, catalog, cap, record, scan, requested, now) == Some(None) <==>
      && EffectiveProjection(cap.restriction, requested).Some?
      && (|| cap.restriction.purpose == None
          || (&& PlansCurrent(record, scan) && IdentityNamed(cap.receipt)
              && cap.receipt.principal.kind == Agent && !IdentityAttested(cap.receipt)))
  {
    hide EffectiveProjection, CurrentSnapshot, CheckIdentity, DecisionOf, IdentityNamed, IdentityAttested, PlansCurrent,
      IssueProof, ValidGrant;
    IdentityExactly(cap.receipt);
    PlansCurrentExactly(record, scan);
  }

  lemma StoredAlike(h: Digests, catalog: string, cap: Capability, record: TableRecord, requested: seq<string>,
                    g: Grant, g': Grant)
    requires Binds(h, catalog, cap, record, requested, g) && SameStableEvidence(g', g)
    ensures Binds(h, catalog, cap, record, requested, g') && g'.proof == g.proof
  {
    hide EffectiveProjection, CurrentSnapshot, DecisionOf, CanonicalText, CanonicalDigest, CanonicalProjection, Intact;
  }

  /** A grant for an agent exists only where a TypeDID verification named that agent. */
  lemma AgentGrantsAreVerified(h: Digests, catalog: string, authority: Authority, judge: Judge, identity: Identity,
                               table: Ident, askedAt: int, record: TableRecord, scan: Scan,
                               requested: seq<string>, now: int, g: Grant)
    requires Get(identity.envelope, AttestationState) == Some(Str("unverified"))
    requires AuthorizeRead(h.base, authority, Echo(judge), identity, TablePlanScan, table, askedAt).Some?
    requires var cap := AuthorizeRead(h.base, authority, Echo(judge), identity, TablePlanScan, table, askedAt).value;
      PlanScan(h, catalog, cap, record, scan, requested, now) == Some(Some(g))
    ensures g.principal.kind.Agent? ==>
              && identity.typedid.Some? && authority.verifier(identity.typedid.value).Some?
              && authority.verifier(identity.typedid.value).value.principal == g.principal
  {
    hide AuthorizeRead, RestrictionOf, Context, Echo, FinalHash, PlanScan, Prepared;
    CapabilityUnderEcho(h.base, authority, judge, identity, TablePlanScan, table, askedAt);
    var cap := AuthorizeRead(h.base, authority, Echo(judge), identity, TablePlanScan, table, askedAt).value;
    IssuedGrantBinds(h, catalog, cap, record, scan, requested, now, g);
    var bindings := authority.bindings(table);
    var verified := VerifyTypedid(authority.verifier, identity).value;
    ContextMembers(table.warehouse, verified, TablePlanScan, bindings,
                   if bindings == [] then None else RestrictionOf(h.base, bindings));
    PlannedIdentity(h, catalog, cap, record, scan, requested, now, g);
    assert "unverified"[0] == 'u' && "verified"[0] == 'v';
  }

  /** An envelope as it is built for a request: it names the principal and is not attested. */
  predicate OrdinaryEnvelope(identity: Identity) {
    && Get(identity.envelope, DPrincipal).Some?
    && NamesPrincipal(Get(identity.envelope, DPrincipal).value, identity.principal)
    && Get(identity.envelope, AttestationState) == Some(Str("unverified"))
  }

  /** Who gets a grant under an echoing engine: everyone whose plan is of the current snapshot and whose names fit,
      attested or not, except that an agent must have come with a TypeDID envelope. */
  lemma WhoGetsGrants(h: Digests, catalog: string, authority: Authority, judge: Judge, identity: Identity,
                      table: Ident, askedAt: int, record: TableRecord, scan: Scan, requested: seq<string>, now: int)
    requires OrdinaryEnvelope(identity)
    requires AuthorizeRead(h.base, authority, Echo(judge), identity, TablePlanScan, table, askedAt).Some?
    ensures var cap := AuthorizeRead(h.base, authority, Echo(judge), identity, TablePlanScan, table, askedAt).value;
      var issued := PlanScan(h, catalog, cap, record, scan, requested, now);
      issued.Some? && issued.value.Some? <==>
        && PlansCurrent(record, scan) && scan.snapshotId.value >= 0 && FitsGrant(catalog, cap, requested)
        && (cap.receipt.principal.kind == Agent ==> identity.typedid.Some?)
  {
    hide AuthorizeRead, PlanScan, RestrictionOf, Context, Echo, FinalHash, Prepared, FitsGrant, PlansCurrent,
      VerifyTypedid, NamesPrincipal;
    var cap := AuthorizeRead(h.base, authority, Echo(judge), identity, TablePlanScan, table, askedAt).value;
    CapabilityUnderEcho(h.base, authority, judge, identity, TablePlanScan, table, askedAt);
    var verified := VerifyTypedid(authority.verifier, identity).value;
    VerifyTypedidExactly(authority.verifier, identity, verified);
    var bindings := authority.bindings(table);
    ContextMembers(table.warehouse, verified, TablePlanScan, bindings,
                   if bindings == [] then None else RestrictionOf(h.base, bindings));
    assert "unverified"[0] == 'u' && "verified"[0] == 'v';
    IssuesExactly(h, catalog, cap, record, scan, requested, now);
  }

  lemma PlannedIdentity(h: Digests, catalog: string, cap: Capability, record: TableRecord, scan: Scan,
                        requested: seq<string>, now: int, g: Grant)
    requires PlanScan(h, catalog, cap, record, scan, requested, now) == Some(Some(g))
    ensures cap.receipt.principal.kind.Agent? ==>
              && Member(cap.receipt.context, RequestIdentityKey).Some?
              && Member(Member(cap.receipt.context, RequestIdentityKey).value, AttestationState)
                 == Some(Str("verified"))
  {
    hide ValidGrant, ValidEvidence, CanonicalDigest, EffectiveProjection, CurrentSnapshot, EvidenceFor;
  }

  // ---- storing ----

  /** Saving a grant once more changes nothing and gives back the stored one, whatever the time of issue; other
      evidence under its id is refused; and what was saved can be loaded. */
  lemma SavedExactly(h: Digests, grants: map<string, Grant>, g: Grant)
    requires ValidGrant(h, g)
    ensures var id := g.proof.grantId; var saved := SaveGrant(h, grants, g);
      && (id !in grants ==> saved == Some((grants[id := g], g)) && LoadGrant(h, saved.value.0, id) == Some(g))
      && (id in grants && grants[id].(issuedAt := g.issuedAt) == g ==> saved == Some((grants, grants[id])))
      && (id in grants && grants[id].(issuedAt := g.issuedAt) != g ==> saved == None)
  {
    assert CanonicalDigest(g.proof.grantId);
    hide CanonicalDigest, CanonicalText, CanonicalProjection, Intact;
  }

  // ---- safety of one revalidation ----

  /** Whatever the engine answers, success means that the presented proof is the stored one and that
      table, policies and authorization still are what it binds; and that the "fresh" policy decision
      digest is always the original one. */
  lemma SuccessShows(h: Digests, catalog: string, presented: Proof, seen: Reading)
    ensures Revalidate(h, catalog, presented, seen).Some? ==>
      var out := Revalidate(h, catalog, presented, seen).value; var e := presented.evidence;
      && out.proof == presented && e.catalog == catalog && out.freshPolicy == e.policy
      && presented.grantId in seen.grants && seen.grants[presented.grantId].proof == presented
      && seen.table.Some? && TableEvidenceHolds(h, seen.grants[presented.grantId], seen.table.value)
      && var r := RestrictionOf(h.base, seen.bindings);
      && r.Some? && RestrictionHolds(h, seen.grants[presented.grantId], r.value)
      && var request := FreshRequest(seen.grants[presented.grantId], r.value, seen.bindings);
      && seen.engine(request, seen.now).Some? && seen.engine(request, seen.now).value.allowed
  {
    hide ValidGrant, Intact, TableEvidenceHolds, RestrictionHolds, RestrictionOf, FreshRequest, Carries, WithPolicyHash;
  }

  // ---- exactly when it succeeds ----

  lemma TableExactly(h: Digests, catalog: string, cap: Capability, record: TableRecord, requested: seq<string>,
                     g: Grant, now: TableRecord)
    requires Binds(h, catalog, cap, record, requested, g) && Tells(h.metadata, now.metadata, record.metadata)
    ensures TableEvidenceHolds(h, g, now) <==> now == record
  {
    hide EffectiveProjection, DecisionOf, ValidGrant;
  }

  lemma RestrictionExactly(h: Digests, catalog: string, cap: Capability, record: TableRecord, requested: seq<string>,
                           g: Grant, r: Restriction)
    requires Binds(h, catalog, cap, record, requested, g) && Tells(h.restriction, r, cap.restriction)
    ensures RestrictionHolds(h, g, r) <==> r == cap.restriction
  {
    hide EffectiveProjection, DecisionOf, ValidGrant, CurrentSnapshot;
  }

  /** Final policy hashes under one restriction agree exactly when engine name and hash do. */
  lemma FinalHashExactly(h: Hasher, v: Verdict, w: Verdict, r: Restriction, action: Action, table: Option<Ident>)
    requires Tells(h.readPolicy, ReadPolicy(v.engine, v.policyHash, r.policyHashes, action, table),
                   ReadPolicy(w.engine, w.policyHash, r.policyHashes, action, table))
    ensures v.engine == w.engine && FinalHash(h, v, r, action, table) == FinalHash(h, w, r, action, table)
       <==> v.engine == w.engine && v.policyHash == w.policyHash
  {
  }

  /** The receipt of an echoing engine for a scan of the table. */
  function ScanReceipt(h: Hasher, p: Principal, t: Ident, v: Verdict, r: Restriction, context: Json, now: int)
    : Receipt
  {
    Receipt(p, TablePlanScan, Some(t), true, v.engine, FinalHash(h, v, r, TablePlanScan, Some(t)), context, now)
  }

  lemma FreshDecision(h: Hasher, judge: Judge, g: Grant, r: Restriction, bindings: seq<Binding>, now: int)
    requires DecodeRestriction(Obj(EncodeRestriction(r))) == Some(r)
    ensures var t := g.proof.evidence.table;
      var verdict := judge(FreshRequest(g, r, bindings), now);
      var receipt := Decided(h, Echo(judge), FreshRequest(g, r, bindings), now);
      && (receipt.Some? <==> verdict.Some? && verdict.value.allowed)
      && (receipt.Some? ==>
            && receipt.value == ScanReceipt(h, g.principal, t, verdict.value, r, Obj(FreshContext(g, r, bindings)), now)
            && Carries(receipt.value, t, r))
  {
    hide Decided, Echo, EncodeRestriction, DecodeRestriction, FinalHash;
    FreshContextMembers(g, r, bindings);
    hide FreshContext;
    EchoDecided(h, judge, FreshRequest(g, r, bindings), now, r);
  }

  lemma FreshContextMembers(g: Grant, r: Restriction, bindings: seq<Binding>)
    ensures Member(Obj(FreshContext(g, r, bindings)), DReadRestriction) == Some(Obj(EncodeRestriction(r)))
    ensures GrantId in FreshContext(g, r, bindings)
  {
    hide EncodeRestriction, PrincipalJson, BindingsJson;
  }

  /** The values whose digests a revalidation compares are told apart. */
  ghost predicate NoCollision(h: Digests, cap: Capability, record: TableRecord, now: Option<TableRecord>,
                              r: Option<Restriction>, v: Verdict, w: Option<Verdict>)
  {
    && (now.Some? ==> Tells(h.metadata, now.value.metadata, record.metadata))
    && (r.Some? ==> Tells(h.restriction, r.value, cap.restriction))
    && (w.Some? ==>
          var p, t := cap.receipt.principal, cap.table;
          && Tells(h.base.readPolicy,
                   ReadPolicy(v.engine, v.policyHash, cap.restriction.policyHashes, TablePlanScan, Some(t)),
                   ReadPolicy(w.value.engine, w.value.policyHash, cap.restriction.policyHashes, TablePlanScan, Some(t)))
          && Tells(h.policy,
                   DecisionOf(ScanReceipt(h.base, p, t, v, cap.restriction, Null, 0), cap.restriction),
                   DecisionOf(ScanReceipt(h.base, p, t, w.value, cap.restriction, Null, 0), cap.restriction)))
  }

  lemma PolicyExactly(h: Digests, catalog: string, cap: Capability, record: TableRecord, requested: seq<string>,
                      g: Grant, v: Verdict, w: Verdict, context: Json, at: int, newContext: Json, now: int)
    requires Binds(h, catalog, cap, record, requested, g)
    requires cap.receipt == ScanReceipt(h.base, cap.receipt.principal, cap.table, v, cap.restriction, context, at)
    requires NoCollision(h, cap, record, None, None, v, Some(w))
    requires var receipt := ScanReceipt(h.base, g.principal, cap.table, w, cap.restriction, newContext, now);
      Carries(receipt, cap.table, cap.restriction)
    ensures var receipt := ScanReceipt(h.base, g.principal, cap.table, w, cap.restriction, newContext, now);
      PolicyHolds(h, g, receipt, cap.restriction) <==> v.engine == w.engine && v.policyHash == w.policyHash
  {
    hide EffectiveProjection, ValidGrant, CurrentSnapshot, Carries, FinalHash;
    FinalHashExactly(h.base, v, w, cap.restriction, TablePlanScan, Some(cap.table));
  }

  /** An issued and stored grant revalidates, under context-echoing engines, exactly when the table record and the
      composed restriction are those of the time of issue and the engine's verdict on the revalidation's own
      request is the verdict it gave on the request of the scan; and what comes back is the proof that was
      presented.  The two requests never have the same context, so for an engine whose verdict rests on the
      context the last condition is a real one. */
  lemma RevalidatesExactly(h: Digests, catalog: string, authority: Authority, judge: Judge, identity: Identity,
                           table: Ident, askedAt: int, record: TableRecord, scan: Scan, requested: seq<string>,
                           plannedAt: int, g: Grant, judge': Judge, seen: Reading)
    requires seen.engine == Echo(judge')
    requires AuthorizeRead(h.base, authority, Echo(judge), identity, TablePlanScan, table, askedAt).Some?
    requires Prepared(h.base, authority, identity, TablePlanScan, Some(table), []).Some?
    requires var cap := AuthorizeRead(h.base, authority, Echo(judge), identity, TablePlanScan, table, askedAt).value;
      && PlanScan(h, catalog, cap, record, scan, requested, plannedAt) == Some(Some(g))
      && var v := judge(Prepared(h.base, authority, identity, TablePlanScan, Some(table), []).value, askedAt);
      v.Some? ==> NoCollision(h, cap, record, seen.table, RestrictionOf(h.base, seen.bindings), v.value,
                              judge'(FreshRequest(g, cap.restriction, seen.bindings), seen.now))
    requires g.proof.grantId in seen.grants && SameStableEvidence(seen.grants[g.proof.grantId], g)
    ensures var cap := AuthorizeRead(h.base, authority, Echo(judge), identity, TablePlanScan, table, askedAt).value;
      var v := judge(Prepared(h.base, authority, identity, TablePlanScan, Some(table), []).value, askedAt);
      Revalidate(h, catalog, g.proof, seen).Some? <==>
        && seen.table == Some(record)
        && RestrictionOf(h.base, seen.bindings) == RestrictionOf(h.base, authority.bindings(table))
        && judge'(FreshRequest(g, cap.restriction, seen.bindings), seen.now) == v
    ensures Revalidate(h, catalog, g.proof, seen).Some? ==> Revalidate(h, catalog, g.proof, seen).value.proof == g.proof
  {
    hide AuthorizeRead, VerifyTypedid, RestrictionOf, Context, Echo, PlanScan, FinalHash, Prepared, FreshContext;
    CapabilityUnderEcho(h.base, authority, judge, identity, TablePlanScan, table, askedAt);
    var cap := AuthorizeRead(h.base, authority, Echo(judge), identity, TablePlanScan, table, askedAt).value;
    IssuedGrantBinds(h, catalog, cap, record, scan, requested, plannedAt, g);
    var stored := seen.grants[g.proof.grantId];
    StoredAlike(h, catalog, cap, record, requested, g, stored);
    SameFreshRequest(g, stored, cap.restriction, seen.bindings);
    var request := Prepared(h.base, authority, identity, TablePlanScan, Some(table), []).value;
    var v := judge(request, askedAt).value;
    var context := cap.receipt.context;
    assert cap.receipt == ScanReceipt(h.base, cap.receipt.principal, table, v, cap.restriction, context, askedAt);
    hide FreshRequest, EchoReceipt, Binds, NoCollision;
    StoredRevalidates(h, catalog, cap, record, requested, stored, v, context, askedAt, judge', seen);
  }

  lemma SameFreshRequest(g: Grant, g': Grant, r: Restriction, bindings: seq<Binding>)
    requires SameStableEvidence(g', g)
    ensures FreshRequest(g, r, bindings) == FreshRequest(g', r, bindings)
  {
    hide PrincipalJson, BindingsJson, EncodeRestriction;
  }

  lemma StoredRevalidates(h: Digests, catalog: string, cap: Capability, record: TableRecord, requested: seq<string>,
                          g: Grant, v: Verdict, context: Json, at: int, judge': Judge, seen: Reading)
    requires Binds(h, catalog, cap, record, requested, g) && v.allowed && seen.engine == Echo(judge')
    requires cap.receipt == ScanReceipt(h.base, cap.receipt.principal, cap.table, v, cap.restriction, context, at)
    requires g.proof.grantId in seen.grants && seen.grants[g.proof.grantId] == g
    requires NoCollision(h, cap, record, seen.table, RestrictionOf(h.base, seen.bindings), v,
                         judge'(FreshRequest(g, cap.restriction, seen.bindings), seen.now))
    ensures Revalidate(h, catalog, g.proof, seen).Some?
       <==> && seen.table == Some(record) && RestrictionOf(h.base, seen.bindings) == Some(cap.restriction)
            && judge'(FreshRequest(g, cap.restriction, seen.bindings), seen.now) == Some(v)
    ensures Revalidate(h, catalog, g.proof, seen).Some? ==> Revalidate(h, catalog, g.proof, seen).value.proof == g.proof
  {
    hide RestrictionOf, Echo, FinalHash, EncodeRestriction, DecodeRestriction, FreshRequest, Decided,
      EffectiveProjection;
    assert LoadGrant(h, seen.grants, g.proof.grantId) == Some(g);
    assert Intact(h, g.proof) && g.proof.evidence.catalog == catalog;
    hide ValidGrant, Intact, LoadGrant;
    if seen.table.Some? {
      TableExactly(h, catalog, cap, record, requested, g, seen.table.value);
    }
    hide TableEvidenceHolds;
    var r := RestrictionOf(h.base, seen.bindings);
    if r.Some? {
      ComposedRoundTrip(h.base, seen.bindings);
      RestrictionExactly(h, catalog, cap, record, requested, g, r.value);
      FreshDecision(h.base, judge', g, r.value, seen.bindings, seen.now);
      hide RestrictionHolds;
      var w := judge'(FreshRequest(g, r.value, seen.bindings), seen.now);
      if r.value == cap.restriction && w.Some? && w.value.allowed {
        PolicyExactly(h, catalog, cap, record, requested, g, v, w.value, context, at,
                      Obj(FreshContext(g, r.value, seen.bindings)), seen.now);
      }
    }
  }

  // ---- canonical text ----

  lemma {:induction false} TrimShortens(s: string)
    ensures |Trim(s)| <= |s|
    decreases |s|
  {
    if s != "" && IsWhitespace(s[0]) {
      TrimShortens(s[1..]);
    } else if s != "" && IsWhitespace(s[|s| - 1]) {
      TrimShortens(s[..|s| - 1]);
    }
  }

  /** Canonical text is not empty, has at most 4096 bytes, neither begins nor ends with white space, and has no control
      characters. */
  lemma CanonicalTextExactly(s: string)
    ensures CanonicalText(s) <==>
      && s != "" && Utf8Length(s) <= 4096 && !IsWhitespace(s[0]) && !IsWhitespace(s[|s| - 1])
      && forall i :: 0 <= i < |s| ==>
           !(s[i] <= '\U{001F}' || ('\U{007F}' <= s[i] <= '\U{009F}'))
  {
    hide Utf8Length, IsWhitespace;
    if s != "" && IsWhitespace(s[0]) {
      TrimShortens(s[1..]);
    } else if s != "" && IsWhitespace(s[|s| - 1]) {
      TrimShortens(s[..|s| - 1]);
    }
    assert (forall c :: c in s ==> !IsControl(c)) <==> forall i :: 0 <= i < |s| ==> !IsControl(s[i]);
  }

  /** A canonical projection lists at most 256 columns of canonical text, none twice, of 65536 bytes in all; whether it
      may be empty depends on which of the two it is. */
  lemma CanonicalProjectionExactly(fields: seq<string>, mayBeEmpty: bool)
    ensures CanonicalProjection(fields, mayBeEmpty) <==>
      if fields == [] then mayBeEmpty
      else
        && |fields| <= 256 && TotalLength(fields) <= 65536
        && (forall i :: 0 <= i < |fields| ==> CanonicalText(fields[i])) && DuplicateFree(fields)
  {
    hide CanonicalText, TotalLength;
    assert ToSet(fields) == set f | f in fields;
    if DuplicateFree(fields) {
      DistinctSize(fields);
    }
    if |ToSet(fields)| == |fields| {
      NoDuplicates(fields);
    }
    assert (forall p :: p in fields ==> CanonicalText(p))
      <==> forall i :: 0 <= i < |fields| ==> CanonicalText(fields[i]);
  }

  // ---- engines and contexts ----

  /** What a revalidation tells the engine besides the scope: whose scan it was and under which context, which policies
      bind the table now and what they compose to, and the grant itself. */
  lemma FreshContextSays(g: Grant, r: Restriction, bindings: seq<Binding>)
    ensures var context := FreshContext(g, r, bindings);
      && Get(context, Warehouse) == Some(Str(g.proof.evidence.table.warehouse))
      && Get(context, GrantId) == Some(Str(g.proof.grantId))
      && Get(context, DReadRestriction) == Some(Obj(EncodeRestriction(r)))
      && Get(context, PolicyBindingsKey).Some? && Get(context, PolicyBindingsKey).value.Arr?
      && |Get(context, PolicyBindingsKey).value.items| == |bindings|
      && (forall i :: 0 <= i < |bindings| ==> Describes(Get(context, PolicyBindingsKey).value.items[i], bindings[i]))
      && Get(context, RequestIdentityKey).Some? && Get(context, RequestIdentityKey).value.Obj?
      && var identity := Get(context, RequestIdentityKey).value.members;
      && Get(identity, DPrincipal).Some? && NamesPrincipal(Get(identity, DPrincipal).value, g.principal)
      && Get(identity, AttestationState) == Some(Str("governed-scan-revalidation"))
      && Get(identity, OriginalContextDigest) == Some(Str(g.context))
  {
    hide EncodeRestriction, BindingJson, Describes;
    forall i | 0 <= i < |bindings| ensures Describes(BindingJson(bindings[i]), bindings[i]) {
      BindingDescribed(bindings[i]);
    }
  }

  /** The verdict rests on principal, action and table alone. */
  ghost predicate ScopeOnly(judge: Judge) {
    forall a: Request, b: Request, m: int, n: int ::
      a.principal == b.principal && a.action == b.action && a.table == b.table ==> judge(a, m) == judge(b, n)
  }

  /** The request of a scan and that of a revalidation agree in principal, action and table, and always differ in
      their contexts: only the second names the grant. */
  lemma RequestsDiffer(h: Digests, catalog: string, authority: Authority, identity: Identity, table: Ident,
                       cap: Capability, record: TableRecord, requested: seq<string>, g: Grant, bindings: seq<Binding>)
    requires Prepared(h.base, authority, identity, TablePlanScan, Some(table), []).Some?
    requires Binds(h, catalog, cap, record, requested, g) && cap.table == table
    requires cap.receipt.principal
          == Prepared(h.base, authority, identity, TablePlanScan, Some(table), []).value.principal
    ensures var request := Prepared(h.base, authority, identity, TablePlanScan, Some(table), []).value;
      var again := FreshRequest(g, cap.restriction, bindings);
      && request.principal == again.principal && request.action == again.action && request.table == again.table
      && GrantId !in request.context && GrantId in again.context
  {
    hide ValidGrant, EffectiveProjection, CurrentSnapshot, DecisionOf, VerifyTypedid, RestrictionOf, Context,
      FreshContext;
    PreparedRead(h.base, authority, identity, TablePlanScan, table);
    var restriction := RestrictionOf(h.base, authority.bindings(table));
    NoGrantId(table.warehouse, VerifyTypedid(authority.verifier, identity).value, authority.bindings(table),
              if authority.bindings(table) == [] then None else restriction);
    FreshContextMembers(g, cap.restriction, bindings);
  }

  lemma NoGrantId(warehouse: string, identity: Identity, bindings: seq<Binding>, restriction: Option<Restriction>)
    ensures GrantId !in Context(warehouse, identity, TablePlanScan, bindings, restriction)
  {
    hide EncodeRestriction, RawException, BindingsJson;
  }
}
