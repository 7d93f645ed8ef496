/** Exactly when, in a run of the protocol, a stored grant revalidates: what suspends it, what revives it. */
module GrantRuns {
  import opened Json
  import opened Policy
  import opened Authorization
  import opened AuthorizationLaws
  import opened PolicyBindings
  import opened GovernedScan
  import opened GrantLaws
  import opened GrantProtocol
  import opened Engines

  /** A grant of the run: its history, and the judge in the engine that authorized its scan. */
  datatype Origin = Origin(past: Past, judge: Judge, g: Grant)
  {
    function Table(): Ident {
      past.cap.table
    }
  }

  ghost predicate Granted(sys: System, s: State, steps: seq<Step>, o: Origin) {
    && History(sys, s, steps, o.past, o.g)
    && At(sys, s, steps, o.past.i).engine == Echo(o.judge)
  }

  /** The moments of a revalidation's four reads, and the judge in the engine at the last. */
  datatype Reads = Reads(a: nat, b: nat, c: nat, d: nat, now: int, judge: Judge)

  /** The reads come in order, the first finds the grant stored, and the engine of the last echoes. */
  ghost predicate Finds(sys: System, s: State, steps: seq<Step>, o: Origin, r: Reads) {
    && r.a <= r.b <= r.c <= r.d <= |steps|
    && o.g.proof.grantId in At(sys, s, steps, r.a).grants
    && SameStableEvidence(At(sys, s, steps, r.a).grants[o.g.proof.grantId], o.g)
    && At(sys, s, steps, r.d).engine == Echo(r.judge)
  }

  ghost function Outcome(sys: System, s: State, steps: seq<Step>, o: Origin, r: Reads): Option<Revalidated>
    requires r.a <= r.b <= r.c <= r.d <= |steps|
  {
    Revalidate(sys.h, sys.catalog, o.g.proof, Seen(sys, s, steps, o.Table(), r.a, r.b, r.c, r.d, r.now))
  }

  ghost function RestrictionAt(sys: System, s: State, steps: seq<Step>, n: nat, t: Ident): Option<Restriction>
    requires n <= |steps|
  {
    RestrictionOf(sys.h.base, BindingsOf(At(sys, s, steps, n), t))
  }

  /** The verdict that authorized the scan. */
  ghost function OldVerdict(sys: System, s: State, steps: seq<Step>, o: Origin): Option<Verdict>
    requires Granted(sys, s, steps, o)
  {
    o.judge(o.past.request, steps[o.past.i].now)
  }

  /** The request that a revalidation puts to the engine while the grant's restriction stands. */
  ghost function RequestAgain(sys: System, s: State, steps: seq<Step>, o: Origin, r: Reads): Request
    requires r.c <= |steps|
  {
    FreshRequest(o.g, o.past.cap.restriction, BindingsOf(At(sys, s, steps, r.c), o.Table()))
  }

  ghost function NewVerdict(sys: System, s: State, steps: seq<Step>, o: Origin, r: Reads): Option<Verdict>
    requires r.c <= |steps|
  {
    r.judge(RequestAgain(sys, s, steps, o, r), r.now)
  }

  ghost predicate VerdictStands(sys: System, s: State, steps: seq<Step>, o: Origin, r: Reads)
    requires Granted(sys, s, steps, o) && r.c <= |steps|
  {
    NewVerdict(sys, s, steps, o, r) == OldVerdict(sys, s, steps, o)
  }

  /** The values whose digests this revalidation compares are told apart. */
  ghost predicate Clear(sys: System, s: State, steps: seq<Step>, o: Origin, r: Reads)
    requires Granted(sys, s, steps, o) && r.a <= r.b <= r.c <= r.d <= |steps|
  {
    OldVerdict(sys, s, steps, o).Some? ==>
      NoCollision(sys.h, o.past.cap, o.past.record, LoadTable(At(sys, s, steps, r.b), o.Table()),
                  RestrictionAt(sys, s, steps, r.c, o.Table()), OldVerdict(sys, s, steps, o).value,
                  NewVerdict(sys, s, steps, o, r))
  }

  /** In every run, whatever its steps, a stored grant revalidates exactly when the table record read is the
      one it was planned on, the policies read compose to the restriction it was authorized under, and the
      engine asked gives the verdict it was authorized by; and then its own proof comes back. */
  lemma RunRevalidatesExactly(sys: System, s: State, steps: seq<Step>, o: Origin, r: Reads)
    requires Granted(sys, s, steps, o) && Finds(sys, s, steps, o, r) && Clear(sys, s, steps, o, r)
    ensures Outcome(sys, s, steps, o, r).Some?
       <==> && LoadTable(At(sys, s, steps, r.b), o.Table()) == Some(o.past.record)
            && RestrictionAt(sys, s, steps, r.c, o.Table()) == Some(o.past.cap.restriction)
            && VerdictStands(sys, s, steps, o, r)
    ensures Outcome(sys, s, steps, o, r).Some? ==> Outcome(sys, s, steps, o, r).value.proof == o.g.proof
  {
    hide At, Revalidate, AuthorizeRead, PlanScan, LoadTable, Echo, RestrictionOf, NoCollision, Prepared, Won,
      FreshRequest;
    var asked, authorized, planned := steps[o.past.p], steps[o.past.i], steps[o.past.k];
    var authority := AuthorityOf(sys, At(sys, s, steps, o.past.p));
    CapabilityHistory(sys, s, steps, o.past, o.g);
    IssuedGrantBinds(sys.h, sys.catalog, o.past.cap, o.past.record, planned.scan, planned.requested, planned.now, o.g);
    CapabilityUnderEcho(sys.h.base, authority, o.judge, asked.identity, TablePlanScan, o.Table(), authorized.now);
    RevalidatesExactly(sys.h, sys.catalog, authority, o.judge, asked.identity, o.Table(), authorized.now,
                       o.past.record, planned.scan, planned.requested, planned.now, o.g, r.judge,
                       Seen(sys, s, steps, o.Table(), r.a, r.b, r.c, r.d, r.now));
  }

  // ---- what stays when nothing touches it ----

  /** The step may change the live record of the table (restoring a live table does not). */
  predicate TouchesTable(step: Step, t: Ident) {
    (step.Commit? || step.Drop? || step.Replace?) && step.table == t
  }

  ghost predicate TableLeft(steps: seq<Step>, n: nat, m: nat, t: Ident)
    requires m <= |steps|
  {
    forall i :: n <= i < m ==> !TouchesTable(steps[i], t)
  }

  lemma {:induction false} TableKept(sys: System, s: State, steps: seq<Step>, n: nat, m: nat, t: Ident)
    requires n <= m <= |steps| && TableLeft(steps, n, m, t) && LoadTable(At(sys, s, steps, n), t).Some?
    ensures LoadTable(At(sys, s, steps, m), t) == LoadTable(At(sys, s, steps, n), t)
    decreases m
  {
    hide Apply;
    if n < m {
      TableKept(sys, s, steps, n, m - 1, t);
      NextMoment(sys, s, steps, m - 1);
      TableStep(sys, At(sys, s, steps, m - 1), steps[m - 1], t);
    }
  }

  lemma TableStep(sys: System, s: State, step: Step, t: Ident)
    requires !TouchesTable(step, t) && LoadTable(s, t).Some?
    ensures LoadTable(Apply(sys, s, step), t) == LoadTable(s, t)
  {
    hide AuthorizeRead, PlanScan, SaveGrant, AuthorityOf, Committed;
  }

  /** No step stores a binding that governs the table, or replaces one that does. */
  ghost predicate PoliciesLeft(sys: System, s: State, steps: seq<Step>, n: nat, m: nat, t: Ident)
    requires m <= |steps|
  {
    forall i :: n <= i < m && steps[i].Bind? ==> !Affects(At(sys, s, steps, i).bindings, steps[i].binding, t)
  }

  lemma {:induction false} PoliciesKept(sys: System, s: State, steps: seq<Step>, n: nat, m: nat, t: Ident)
    requires n <= m <= |steps| && PoliciesLeft(sys, s, steps, n, m, t)
    ensures Governing(At(sys, s, steps, m).bindings, t) == Governing(At(sys, s, steps, n).bindings, t)
    decreases m
  {
    hide Apply, Governing;
    if n < m {
      PoliciesKept(sys, s, steps, n, m - 1, t);
      NextMoment(sys, s, steps, m - 1);
      BindingsStep(sys, At(sys, s, steps, m - 1), steps[m - 1]);
      hide At;
      if steps[m - 1].Bind? {
        UnaffectedBindings(At(sys, s, steps, m - 1).bindings, steps[m - 1].binding, t);
      }
    }
  }

  lemma BindingsStep(sys: System, s: State, step: Step)
    ensures Apply(sys, s, step).bindings
         == if step.Bind? then s.bindings[KeyOf(step.binding) := step.binding] else s.bindings
  {
    hide AuthorizeRead, PlanScan, SaveGrant, AuthorityOf, Committed, LoadTable;
  }

  /** The restriction the grant was authorized under is what the policies composed to when the request was
      made out, and the verdict was a real one. */
  lemma AuthorizedRestriction(sys: System, s: State, steps: seq<Step>, o: Origin)
    requires Granted(sys, s, steps, o)
    ensures RestrictionAt(sys, s, steps, o.past.p, o.Table()) == Some(o.past.cap.restriction)
    ensures OldVerdict(sys, s, steps, o).Some?
  {
    hide At, AuthorizeRead, PlanScan, LoadTable, Echo, RestrictionOf, Prepared, Won;
    var asked, authorized := steps[o.past.p], steps[o.past.i];
    var authority := AuthorityOf(sys, At(sys, s, steps, o.past.p));
    CapabilityHistory(sys, s, steps, o.past, o.g);
    CapabilityUnderEcho(sys.h.base, authority, o.judge, asked.identity, TablePlanScan, o.Table(), authorized.now);
  }

  lemma SameGoverningSameRestriction(sys: System, s: State, steps: seq<Step>, n: nat, m: nat, t: Ident)
    requires n <= |steps| && m <= |steps|
    requires Governing(At(sys, s, steps, m).bindings, t) == Governing(At(sys, s, steps, n).bindings, t)
    ensures RestrictionAt(sys, s, steps, m, t) == RestrictionAt(sys, s, steps, n, t)
  {
    hide At, Sorted, Governing;
  }

  // ---- authorization ----

  /** While nothing touches the table or its policies, the grant stands and falls with the rules in force:
      it revalidates exactly when the engine asked gives the old verdict, however the rules changed in
      between.  So a revoked permission suspends it, and permission given back revives it. */
  lemma RulesDecide(sys: System, s: State, steps: seq<Step>, o: Origin, r: Reads)
    requires Granted(sys, s, steps, o) && Finds(sys, s, steps, o, r) && o.past.j <= r.b && o.past.p <= r.c
    requires TableLeft(steps, o.past.j, r.b, o.Table()) && PoliciesLeft(sys, s, steps, o.past.p, r.c, o.Table())
    requires Clear(sys, s, steps, o, r)
    ensures Outcome(sys, s, steps, o, r).Some? <==> VerdictStands(sys, s, steps, o, r)
  {
    hide At, Outcome, Clear, LoadTable, RestrictionAt, VerdictStands, Echo;
    LoadedMeans(sys, s, steps, o.past.j, o.past.cap, o.past.record);
    TableKept(sys, s, steps, o.past.j, r.b, o.Table());
    AuthorizedRestriction(sys, s, steps, o);
    PoliciesKept(sys, s, steps, o.past.p, r.c, o.Table());
    SameGoverningSameRestriction(sys, s, steps, o.past.p, r.c, o.Table());
    RunRevalidatesExactly(sys, s, steps, o, r);
  }

  /** What has not changed revalidates; no digest needs to tell anything apart. */
  lemma UnchangedRevalidates(sys: System, s: State, steps: seq<Step>, o: Origin, r: Reads)
    requires Granted(sys, s, steps, o) && Finds(sys, s, steps, o, r)
    requires LoadTable(At(sys, s, steps, r.b), o.Table()) == Some(o.past.record)
    requires Governing(At(sys, s, steps, r.c).bindings, o.Table())
          == Governing(At(sys, s, steps, o.past.p).bindings, o.Table())
    requires VerdictStands(sys, s, steps, o, r)
    ensures Outcome(sys, s, steps, o, r).Some? && Outcome(sys, s, steps, o, r).value.proof == o.g.proof
  {
    hide At, Outcome, LoadTable, RestrictionAt, OldVerdict, NewVerdict, Echo, Governing, PreparedAt, LoadedAt,
      PlannedAt;
    AuthorizedRestriction(sys, s, steps, o);
    SameGoverningSameRestriction(sys, s, steps, o.past.p, r.c, o.Table());
    RunRevalidatesExactly(sys, s, steps, o, r);
  }

  /** In particular a grant revalidates while the verdict is the old one and nothing touches its table or the
      policies of its table. */
  lemma QuietGrantRevalidates(sys: System, s: State, steps: seq<Step>, o: Origin, r: Reads)
    requires Granted(sys, s, steps, o) && Finds(sys, s, steps, o, r) && o.past.j <= r.b && o.past.p <= r.c
    requires TableLeft(steps, o.past.j, r.b, o.Table()) && PoliciesLeft(sys, s, steps, o.past.p, r.c, o.Table())
    requires VerdictStands(sys, s, steps, o, r)
    ensures Outcome(sys, s, steps, o, r).Some? && Outcome(sys, s, steps, o, r).value.proof == o.g.proof
  {
    hide At, Outcome, LoadTable, VerdictStands, Echo, Governing;
    LoadedMeans(sys, s, steps, o.past.j, o.past.cap, o.past.record);
    TableKept(sys, s, steps, o.past.j, r.b, o.Table());
    PoliciesKept(sys, s, steps, o.past.p, r.c, o.Table());
    UnchangedRevalidates(sys, s, steps, o, r);
  }

  // ---- engines ----

  /** The scan's request and the revalidation's agree in principal, action and table; only the second names the
      grant. */
  lemma RequestsOfRun(sys: System, s: State, steps: seq<Step>, o: Origin, r: Reads)
    requires Granted(sys, s, steps, o) && r.c <= |steps|
    ensures var again := RequestAgain(sys, s, steps, o, r);
      && o.past.request.principal == again.principal && o.past.request.action == again.action
      && o.past.request.table == again.table && o.past.request.context != again.context
  {
    hide At, AuthorizeRead, PlanScan, LoadTable, Echo, RestrictionOf, Prepared, Won, FreshRequest, LoadedAt;
    var asked, authorized, planned := steps[o.past.p], steps[o.past.i], steps[o.past.k];
    var authority := AuthorityOf(sys, At(sys, s, steps, o.past.p));
    CapabilityHistory(sys, s, steps, o.past, o.g);
    IssuedGrantBinds(sys.h, sys.catalog, o.past.cap, o.past.record, planned.scan, planned.requested, planned.now, o.g);
    CapabilityUnderEcho(sys.h.base, authority, o.judge, asked.identity, TablePlanScan, o.Table(), authorized.now);
    RequestsDiffer(sys.h, sys.catalog, authority, asked.identity, o.Table(), o.past.cap, o.past.record,
                   planned.requested, o.g, BindingsOf(At(sys, s, steps, r.c), o.Table()));
  }

  /** For engines that decide by scope, such as the local one, the verdict stands exactly when the rules now in
      force give on the scan's own request what the old ones gave on it; unchanged rules always do. */
  lemma ScopeDecides(sys: System, s: State, steps: seq<Step>, o: Origin, r: Reads)
    requires Granted(sys, s, steps, o) && r.c <= |steps| && ScopeOnly(o.judge) && ScopeOnly(r.judge)
    ensures VerdictStands(sys, s, steps, o, r) <==> r.judge(o.past.request, r.now) == o.judge(o.past.request, r.now)
  {
    hide Granted, RequestAgain;
    RequestsOfRun(sys, s, steps, o, r);
  }

  /** With TypeSec at both ends no stored grant of any run ever revalidates, not even the untouched one. */
  lemma TypeSecRun(sys: System, s: State, steps: seq<Step>, o: Origin, r: Reads, ts: TypeSec, again: TypeSec)
    requires Granted(sys, s, steps, o) && Finds(sys, s, steps, o, r) && Clear(sys, s, steps, o, r)
    requires o.judge == ts.Judges() && r.judge == again.Judges()
    requires again.hash == ts.hash && again.contextHash == ts.contextHash
    requires Tells(ts.contextHash, o.past.request.context, RequestAgain(sys, s, steps, o, r).context)
    requires Tells(ts.hash, ts.Decision(o.past.request), again.Decision(RequestAgain(sys, s, steps, o, r)))
    ensures Outcome(sys, s, steps, o, r).None?
  {
    hide Clear, Outcome, RequestAgain, LoadTable, At, RestrictionAt, Tells, PreparedAt, LoadedAt, PlannedAt, Won, Echo,
      SameStableEvidence;
    RequestsOfRun(sys, s, steps, o, r);
    ContextsChangeVerdicts(ts, again, o.past.request, RequestAgain(sys, s, steps, o, r), steps[o.past.i].now, r.now);
    RunRevalidatesExactly(sys, s, steps, o, r);
  }

  // ---- policies ----

  /** From moment `n` on, one policy of the store is rewritten from `b` to `b'`, and until moment `m` it and
      the table's other policies are left alone; all other steps are free. */
  ghost predicate Rewritten(sys: System, s: State, steps: seq<Step>, n: nat, m: nat, b: Binding, b': Binding,
                            t: Ident)
  {
    && n < m <= |steps| && steps[n] == Bind(b') && KeyOf(b') == KeyOf(b)
    && KeyOf(b) in At(sys, s, steps, n).bindings && At(sys, s, steps, n).bindings[KeyOf(b)] == b
    && (forall i :: n < i < m && steps[i].Bind? ==>
          KeyOf(steps[i].binding) != KeyOf(b) && !Affects(At(sys, s, steps, i).bindings, steps[i].binding, t))
  }

  /** What the policies of the table compose to once `b'` has taken the place of `b`. */
  ghost function RewrittenRestriction(sys: System, s: State, steps: seq<Step>, n: nat, b': Binding, t: Ident)
    : Option<Restriction>
    requires n <= |steps|
  {
    RestrictionOf(sys.h.base, BindingsFor(At(sys, s, steps, n).bindings[KeyOf(b') := b'], t))
  }

  lemma {:induction false} WhileRewritten(sys: System, s: State, steps: seq<Step>, n: nat, m: nat,
                                          b: Binding, b': Binding, t: Ident)
    requires Rewritten(sys, s, steps, n, m, b, b', t)
    ensures var stored := At(sys, s, steps, m).bindings;
      && KeyOf(b) in stored && stored[KeyOf(b)] == b'
      && Governing(stored, t) == Governing(At(sys, s, steps, n).bindings[KeyOf(b) := b'], t)
    decreases m
  {
    hide Apply, Governing, Affects;
    NextMoment(sys, s, steps, m - 1);
    BindingsStep(sys, At(sys, s, steps, m - 1), steps[m - 1]);
    if n < m - 1 {
      WhileRewritten(sys, s, steps, n, m - 1, b, b', t);
      hide At;
      if steps[m - 1].Bind? {
        UnaffectedBindings(At(sys, s, steps, m - 1).bindings, steps[m - 1].binding, t);
      }
    }
  }

  lemma RestoredBindings(stored: Bindings, now: Bindings, b: Binding, b': Binding, t: Ident)
    requires KeyOf(b') == KeyOf(b) && KeyOf(b) in stored && stored[KeyOf(b)] == b
    requires KeyOf(b) in now && now[KeyOf(b)] == b' && Governing(now, t) == Governing(stored[KeyOf(b) := b'], t)
    ensures Governing(now[KeyOf(b) := b], t) == Governing(stored, t)
  {
    hide AppliesTo;
    var k := KeyOf(b);
    var one, two := Governing(now[k := b], t), Governing(stored, t);
    forall l ensures l in one <==> l in two {
      assert l != k ==> (l in Governing(now, t) <==> l in Governing(stored[k := b'], t));
    }
    forall l | l in one ensures one[l] == two[l] {
      assert l != k ==> Governing(now, t)[l] == Governing(stored[k := b'], t)[l];
    }
  }

  /** A rewritten policy suspends the grant exactly when it composes to another restriction. */
  lemma RewrittenPolicySuspends(sys: System, s: State, steps: seq<Step>, o: Origin, r: Reads, n: nat,
                                b: Binding, b': Binding)
    requires Granted(sys, s, steps, o) && Finds(sys, s, steps, o, r) && Clear(sys, s, steps, o, r)
    requires o.past.j <= r.b && TableLeft(steps, o.past.j, r.b, o.Table()) && VerdictStands(sys, s, steps, o, r)
    requires Rewritten(sys, s, steps, n, r.c, b, b', o.Table())
    ensures Outcome(sys, s, steps, o, r).Some?
       <==> RewrittenRestriction(sys, s, steps, n, b', o.Table()) == Some(o.past.cap.restriction)
  {
    LoadedMeans(sys, s, steps, o.past.j, o.past.cap, o.past.record);
    TableKept(sys, s, steps, o.past.j, r.b, o.Table());
    WhileRewritten(sys, s, steps, n, r.c, b, b', o.Table());
    hide At, Outcome, Clear, LoadTable, VerdictStands, Echo, Governing, Sorted, RestrictionOf;
    RunRevalidatesExactly(sys, s, steps, o, r);
  }

  /** The policy is rewritten at `n`, put back at `m`, and from then until `c` the table's policies are left alone. */
  ghost predicate PutBack(sys: System, s: State, steps: seq<Step>, n: nat, m: nat, c: nat, b: Binding, b': Binding,
                          t: Ident)
  {
    && n < m < c <= |steps| && Rewritten(sys, s, steps, n, m, b, b', t) && steps[m] == Bind(b)
    && PoliciesLeft(sys, s, steps, m + 1, c, t)
  }

  lemma PolicyPutBack(sys: System, s: State, steps: seq<Step>, n: nat, m: nat, c: nat, b: Binding, b': Binding,
                      t: Ident)
    requires PutBack(sys, s, steps, n, m, c, b, b', t)
    ensures Governing(At(sys, s, steps, c).bindings, t) == Governing(At(sys, s, steps, n).bindings, t)
  {
    hide Apply, Governing, Affects;
    WhileRewritten(sys, s, steps, n, m, b, b', t);
    NextMoment(sys, s, steps, m);
    BindingsStep(sys, At(sys, s, steps, m), steps[m]);
    RestoredBindings(At(sys, s, steps, n).bindings, At(sys, s, steps, m).bindings, b, b', t);
    PoliciesKept(sys, s, steps, m + 1, c, t);
  }

  /** Putting the policy back revives the grant, if the table and the table's other policies are left alone. */
  lemma RestoredPolicyRevives(sys: System, s: State, steps: seq<Step>, o: Origin, r: Reads, n: nat, m: nat,
                              b: Binding, b': Binding)
    requires Granted(sys, s, steps, o) && Finds(sys, s, steps, o, r)
    requires o.past.j <= r.b && TableLeft(steps, o.past.j, r.b, o.Table()) && VerdictStands(sys, s, steps, o, r)
    requires o.past.p <= n < m < r.c && PutBack(sys, s, steps, n, m, r.c, b, b', o.Table())
    requires PoliciesLeft(sys, s, steps, o.past.p, n, o.Table())
    ensures Outcome(sys, s, steps, o, r).Some? && Outcome(sys, s, steps, o, r).value.proof == o.g.proof
  {
    hide At, Outcome, LoadTable, VerdictStands, Echo, Governing, PutBack, PoliciesLeft, TableLeft;
    LoadedMeans(sys, s, steps, o.past.j, o.past.cap, o.past.record);
    TableKept(sys, s, steps, o.past.j, r.b, o.Table());
    PoliciesKept(sys, s, steps, o.past.p, n, o.Table());
    PolicyPutBack(sys, s, steps, n, m, r.c, b, b', o.Table());
    UnchangedRevalidates(sys, s, steps, o, r);
  }

  // ---- replaced tables ----

  lemma Replaced(sys: System, s: State, steps: seq<Step>, n: nat, t: Ident, record: TableRecord)
    requires n < |steps| && steps[n] == Replace(t, record)
    ensures LoadTable(At(sys, s, steps, n + 1), t) == Some(record)
  {
    NextMoment(sys, s, steps, n);
    hide At;
  }

  /** The one way back after a commit: a table put in the place of the old one lets the grant revalidate
      exactly when its record is, version and metadata, the one the grant was planned on. */
  lemma ReplacementDecides(sys: System, s: State, steps: seq<Step>, o: Origin, r: Reads, n: nat, record: TableRecord)
    requires Granted(sys, s, steps, o) && Finds(sys, s, steps, o, r) && Clear(sys, s, steps, o, r)
    requires o.past.p <= r.c && PoliciesLeft(sys, s, steps, o.past.p, r.c, o.Table())
    requires VerdictStands(sys, s, steps, o, r)
    requires n < r.b && steps[n] == Replace(o.Table(), record) && TableLeft(steps, n + 1, r.b, o.Table())
    ensures Outcome(sys, s, steps, o, r).Some? <==> record == o.past.record
  {
    var t := o.Table();
    Replaced(sys, s, steps, n, t, record);
    hide Apply, LoadTable;
    TableKept(sys, s, steps, n + 1, r.b, t);
    hide At, Apply, Outcome, Clear, LoadTable, VerdictStands, Echo, Governing, RestrictionAt, TableLeft;
    AuthorizedRestriction(sys, s, steps, o);
    PoliciesKept(sys, s, steps, o.past.p, r.c, t);
    SameGoverningSameRestriction(sys, s, steps, o.past.p, r.c, t);
    RunRevalidatesExactly(sys, s, steps, o, r);
  }
}
