/** The two governance engines of the repository, and what they mean for governed scan grants. */
module Engines {
  import opened Json
  import opened Text
  import opened Names
  import opened Authorization
  import opened AuthorizationLaws
  import opened GovernedScan
  import opened GrantLaws

  /** The local engine: everything is allowed, by no policy. */
  function AllowAll(): Judge {
    (request: Request, now: int) => Some(Verdict(true, "lakecat-allow-all-local", None))
  }

  datatype PolicyResult = Allow | Deny | Delegate | OtherResult

  function ResultName(result: PolicyResult): string {
    match result
    case Allow => "allow"
    case Deny => "deny"
    case Delegate => "delegate"
    case OtherResult => "unknown"
  }

  /** The wire name of an action; `OtherAction` carries its own. */
  function ActionName(action: Action): string {
    match action
    case TablePlanScan => "table.plan_scan"
    case CredentialsVend => "credentials.vend"
    case OtherAction(name) => name
  }

  function ResourceName(request: Request): string {
    if request.table.None? then "lakecat:catalog"
    else
      var t := request.table.value;
      StableTableId(t.warehouse, t.namespace, t.name)
  }

  /** What the hash of a TypeSec decision covers; the context only by its own hash. */
  datatype TypeSecDecision = TypeSecDecision(
    subject: string, action: string, resource: string, decision: string, contextHash: string)

  /** TypeSec: a policy over subject, action and resource, and the digests of contexts and decisions. */
  datatype TypeSec = TypeSec(
    check: (string, string, string) -> PolicyResult, contextHash: Object -> string, hash: TypeSecDecision -> string)
  {
    function Decision(request: Request): TypeSecDecision {
      var action, resource := ActionName(request.action), ResourceName(request);
      TypeSecDecision(request.principal.subject, action, resource,
                      ResultName(check(request.principal.subject, action, resource)), contextHash(request.context))
    }

    function Judges(): Judge {
      (request: Request, now: int) =>
        var result := check(request.principal.subject, ActionName(request.action), ResourceName(request));
        Some(Verdict(result == Allow, "typesec", Some(hash(Decision(request)))))
    }
  }

  /** TypeSec allows a scan of a table exactly if its policy answers "allow" for the subject, the action's name and the
      table's stable id. */
  lemma TypeSecDecides(ts: TypeSec, principal: Principal, t: Ident, context: Object, now: int)
    ensures var verdict := ts.Judges()(Request(principal, TablePlanScan, Some(t), context), now);
      && verdict.Some? && verdict.value.engine == "typesec" && verdict.value.policyHash.Some?
      && (verdict.value.allowed <==>
            ts.check(principal.subject, "table.plan_scan",
                     "lakecat:table:" + t.warehouse + ":" + Join(t.namespace, ".") + ":" + t.name) == Allow)
  {
    hide Join;
    var request := Request(principal, TablePlanScan, Some(t), context);
    assert ActionName(request.action) == "table.plan_scan";
    assert ResourceName(request) == "lakecat:table:" + t.warehouse + ":" + Join(t.namespace, ".") + ":" + t.name;
  }

  /** Which engines decide by the scope of a request alone: the local one does, TypeSec does not as soon as its
      digests tell some two contexts apart. */
  lemma ScopeOnlyEngines(ts: TypeSec, a: Request, context: Object)
    requires context != a.context
    requires Tells(ts.contextHash, a.context, context)
    requires Tells(ts.hash, ts.Decision(a), ts.Decision(a.(context := context)))
    ensures ScopeOnly(AllowAll()) && !ScopeOnly(ts.Judges())
  {
    hide ActionName, ResourceName, ResultName;
    var b := a.(context := context);
    assert ts.Decision(a) != ts.Decision(b);
    assert ts.Judges()(a, 0) != ts.Judges()(b, 0);
  }

  /** TypeSec's verdicts on requests with different contexts are different. */
  lemma ContextsChangeVerdicts(ts: TypeSec, again: TypeSec, a: Request, b: Request, m: int, n: int)
    requires again.hash == ts.hash && again.contextHash == ts.contextHash && a.context != b.context
    requires Tells(ts.contextHash, a.context, b.context) && Tells(ts.hash, ts.Decision(a), again.Decision(b))
    ensures ts.Judges()(a, m) != again.Judges()(b, n)
  {
    hide ActionName, ResourceName, ResultName;
  }

  /** Under TypeSec no grant ever revalidates, whatever became of its rules: the decision hash covers the
      context, and the context of a revalidation names the grant while that of a scan does not. */
  lemma TypeSecNeverRevalidates(h: Digests, catalog: string, authority: Authority, ts: TypeSec, again: TypeSec,
                                identity: Identity, table: Ident, askedAt: int, record: TableRecord, scan: Scan,
                                requested: seq<string>, plannedAt: int, g: Grant, seen: Reading)
    requires seen.engine == Echo(again.Judges()) && again.hash == ts.hash && again.contextHash == ts.contextHash
    requires var cap := AuthorizeRead(h.base, authority, Echo(ts.Judges()), identity, TablePlanScan, table, askedAt);
      && cap.Some? && PlanScan(h, catalog, cap.value, record, scan, requested, plannedAt) == Some(Some(g))
      && Prepared(h.base, authority, identity, TablePlanScan, Some(table), []).Some?
      && var request := Prepared(h.base, authority, identity, TablePlanScan, Some(table), []).value;
         var renewed := FreshRequest(g, cap.value.restriction, seen.bindings);
      && Tells(ts.contextHash, request.context, renewed.context)
      && Tells(ts.hash, ts.Decision(request), again.Decision(renewed))
      && NoCollision(h, cap.value, record, seen.table, RestrictionOf(h.base, seen.bindings),
                     ts.Judges()(request, askedAt).value, again.Judges()(renewed, seen.now))
    requires g.proof.grantId in seen.grants && SameStableEvidence(seen.grants[g.proof.grantId], g)
    ensures Revalidate(h, catalog, g.proof, seen).None?
  {
    hide AuthorizeRead, PlanScan, RestrictionOf, VerifyTypedid, Context, Prepared, FreshRequest, Echo, Revalidate,
      NoCollision, SameStableEvidence, FinalHash;
    var cap := AuthorizeRead(h.base, authority, Echo(ts.Judges()), identity, TablePlanScan, table, askedAt).value;
    var request := Prepared(h.base, authority, identity, TablePlanScan, Some(table), []).value;
    CapabilityUnderEcho(h.base, authority, ts.Judges(), identity, TablePlanScan, table, askedAt);
    IssuedGrantBinds(h, catalog, cap, record, scan, requested, plannedAt, g);
    RequestsDiffer(h, catalog, authority, identity, table, cap, record, requested, g, seen.bindings);
    var renewed := FreshRequest(g, cap.restriction, seen.bindings);
    assert request.context != renewed.context;
    ContextsChangeVerdicts(ts, again, request, renewed, askedAt, seen.now);
    RevalidatesExactly(h, catalog, authority, ts.Judges(), identity, table, askedAt, record, scan, requested,
                       plannedAt, g, again.Judges(), seen);
  }
}
