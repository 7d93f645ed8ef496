/** What the steps of the protocol bring about: how a grant comes to be, and what a drop, a restore, a commit and a
    change of the rules do to it. */
module GrantProgress {
  import opened Json
  import opened Policy
  import opened Projection
  import opened Authorization
  import opened AuthorizationLaws
  import opened PolicyBindings
  import opened GovernedScan
  import opened GrantLaws
  import opened GrantProtocol
  import opened GrantRuns

  /** From any state four steps lead to a stored grant, if the request can be made out, the engine answers it with
      leave, the table is there, and planning gives a grant that is not stored yet; and nothing else changes. */
  lemma GrantIsReached(sys: System, s: State, identity: Identity, t: Ident, request: Request, at: int, cap: Capability,
                       record: TableRecord, scan: Scan, requested: seq<string>, now: int, g: Grant)
    requires Prepared(sys.h.base, AuthorityOf(sys, s), identity, TablePlanScan, Some(t), []) == Some(request)
    requires Won(sys.h.base, s.engine, request, at) == Some(cap) && LoadTable(s, cap.table) == Some(record)
    requires PlanScan(sys.h, sys.catalog, cap, record, scan, requested, now) == Some(Some(g))
    requires g.proof.grantId !in s.grants
    ensures var steps :=
        [Prepare(identity, t), Authorize(request, at), Load(cap), Plan(cap, record, scan, requested, now)];
      After(sys, s, steps)
      == State(s.tables, s.dropped, s.bindings, s.engine, s.grants[g.proof.grantId := g], s.pending + {request},
               s.capabilities + {cap}, s.loaded + {(cap, record)})
  {
    hide Prepared, Won, PlanScan, AuthorityOf, ValidGrant, Apply;
    IssuedGrantBinds(sys.h, sys.catalog, cap, record, scan, requested, now, g);
    assert ValidGrant(sys.h, g);
    var p, a, l := Prepare(identity, t), Authorize(request, at), Load(cap);
    var plan := Plan(cap, record, scan, requested, now);
    hide Binds;
    var s1 := s.(pending := s.pending + {request});
    var s2 := s1.(capabilities := s1.capabilities + {cap});
    var s3 := s2.(loaded := s2.loaded + {(cap, record)});
    ScanStep(sys, s, p);
    ScanStep(sys, s1, a);
    ScanStep(sys, s2, l);
    PlanStep(sys, s3, cap, record, scan, requested, now, g);
    assert [p, a, l, plan] == [p] + [a] + [l] + [plan];
    OneMore(sys, s, [], p);
    OneMore(sys, s, [p], a);
    OneMore(sys, s, [p] + [a], l);
    OneMore(sys, s, [p] + [a] + [l], plan);
    assert [] + [p] == [p];
    hide After;
  }

  lemma OneMore(sys: System, s: State, steps: seq<Step>, step: Step)
    ensures After(sys, s, []) == s
    ensures After(sys, s, steps + [step]) == Apply(sys, After(sys, s, steps), step)
  {
    hide Apply;
    assert (steps + [step])[..|steps|] == steps;
  }

  lemma ScanStep(sys: System, s: State, step: Step)
    ensures step.Prepare? ==>
              var authority := AuthorityOf(sys, s);
              var request := Prepared(sys.h.base, authority, step.identity, TablePlanScan, Some(step.table), []);
              request.Some? ==> Apply(sys, s, step) == s.(pending := s.pending + {request.value})
    ensures step.Authorize? && step.request in s.pending ==>
              var cap := Won(sys.h.base, s.engine, step.request, step.now);
              cap.Some? ==> Apply(sys, s, step) == s.(capabilities := s.capabilities + {cap.value})
    ensures step.Load? && step.capability in s.capabilities ==>
              var record := LoadTable(s, step.capability.table);
              record.Some? ==> Apply(sys, s, step) == s.(loaded := s.loaded + {(step.capability, record.value)})
  {
    hide Prepared, Won, PlanScan, SaveGrant, AuthorityOf, Committed, LoadTable;
  }

  lemma PlanStep(sys: System, s: State, cap: Capability, record: TableRecord, scan: Scan, requested: seq<string>,
                 now: int, g: Grant)
    requires (cap, record) in s.loaded && g.proof.grantId !in s.grants && ValidGrant(sys.h, g)
    requires PlanScan(sys.h, sys.catalog, cap, record, scan, requested, now) == Some(Some(g))
    ensures Apply(sys, s, Plan(cap, record, scan, requested, now)) == s.(grants := s.grants[g.proof.grantId := g])
  {
    hide PlanScan, ValidGrant, Prepared, Won, AuthorityOf, Committed, LoadTable;
  }

  // ---- dropped and restored tables ----

  predicate BringsBack(step: Step, t: Ident) {
    (step.Restore? || step.Replace?) && step.table == t
  }

  lemma {:induction false} StaysDropped(sys: System, s: State, steps: seq<Step>, n: nat, m: nat, t: Ident)
    requires n <= m <= |steps| && t in At(sys, s, steps, n).dropped
    requires forall i :: n <= i < m ==> !BringsBack(steps[i], t)
    ensures t in At(sys, s, steps, m).dropped
    decreases m
  {
    hide Apply;
    if n < m {
      StaysDropped(sys, s, steps, n, m - 1, t);
      NextMoment(sys, s, steps, m - 1);
      DroppedStep(sys, At(sys, s, steps, m - 1), steps[m - 1], t);
      hide At;
    }
  }

  lemma DroppedStep(sys: System, s: State, step: Step, t: Ident)
    ensures t in s.dropped && !BringsBack(step, t) ==> t in Apply(sys, s, step).dropped
    ensures t !in s.dropped && !(step.Drop? && step.table == t) ==> t !in Apply(sys, s, step).dropped
    ensures BringsBack(step, t) ==> t !in Apply(sys, s, step).dropped
    ensures step == Drop(t) && LoadTable(s, t).Some? ==> t in Apply(sys, s, step).dropped
  {
    hide Prepared, Won, PlanScan, SaveGrant, AuthorityOf, Committed;
  }

  /** Dropping the table suspends every grant for it until the table is restored or replaced. */
  lemma DropSuspends(sys: System, s: State, steps: seq<Step>, p: Proof, n: nat, a: nat, b: nat, c: nat, d: nat,
                    now: int)
    requires a <= b <= c <= d <= |steps| && n < b && steps[n] == Drop(p.evidence.table)
    requires LoadTable(At(sys, s, steps, n), p.evidence.table).Some?
    requires forall i :: n < i < b ==> !BringsBack(steps[i], p.evidence.table)
    ensures Revalidate(sys.h, sys.catalog, p, Seen(sys, s, steps, p.evidence.table, a, b, c, d, now)).None?
  {
    var t := p.evidence.table;
    NextMoment(sys, s, steps, n);
    DroppedStep(sys, At(sys, s, steps, n), steps[n], t);
    hide Apply;
    StaysDropped(sys, s, steps, n + 1, b, t);
    hide At, Revalidate, BindingsOf;
    SuccessShows(sys.h, sys.catalog, p, Seen(sys, s, steps, t, a, b, c, d, now));
  }

  /** Nothing commits to the table, drops it or replaces it, except for the drop at `n`; at `m` it is restored. */
  ghost predicate DroppedAndRestored(steps: seq<Step>, j: nat, n: nat, m: nat, b: nat, t: Ident) {
    && j <= n < m < b <= |steps| && steps[n] == Drop(t) && steps[m] == Restore(t)
    && TableLeft(steps, j, n, t) && TableLeft(steps, n + 1, b, t)
  }

  lemma {:induction false} RecordKept(sys: System, s: State, steps: seq<Step>, n: nat, m: nat, t: Ident)
    requires n <= m <= |steps| && TableLeft(steps, n, m, t) && t in At(sys, s, steps, n).tables
    ensures t in At(sys, s, steps, m).tables
    ensures At(sys, s, steps, m).tables[t] == At(sys, s, steps, n).tables[t]
    decreases m
  {
    hide Apply;
    if n < m {
      RecordKept(sys, s, steps, n, m - 1, t);
      NextMoment(sys, s, steps, m - 1);
      RecordStep(sys, At(sys, s, steps, m - 1), steps[m - 1], t);
      hide At;
    }
  }

  lemma RecordStep(sys: System, s: State, step: Step, t: Ident)
    requires t in s.tables && (!TouchesTable(step, t) || step.Drop?)
    ensures t in Apply(sys, s, step).tables && Apply(sys, s, step).tables[t] == s.tables[t]
  {
    hide Prepared, Won, PlanScan, SaveGrant, AuthorityOf, Committed;
  }

  lemma {:induction false} StaysLive(sys: System, s: State, steps: seq<Step>, n: nat, m: nat, t: Ident)
    requires n <= m <= |steps| && t !in At(sys, s, steps, n).dropped && TableLeft(steps, n, m, t)
    ensures t !in At(sys, s, steps, m).dropped
    decreases m
  {
    hide Apply;
    if n < m {
      StaysLive(sys, s, steps, n, m - 1, t);
      NextMoment(sys, s, steps, m - 1);
      DroppedStep(sys, At(sys, s, steps, m - 1), steps[m - 1], t);
      hide At;
    }
  }

  lemma RestoredRecord(sys: System, s: State, steps: seq<Step>, j: nat, n: nat, m: nat, b: nat, t: Ident)
    requires DroppedAndRestored(steps, j, n, m, b, t) && LoadTable(At(sys, s, steps, j), t).Some?
    ensures LoadTable(At(sys, s, steps, b), t) == LoadTable(At(sys, s, steps, j), t)
  {
    hide Apply;
    RecordKept(sys, s, steps, j, n, t);
    NextMoment(sys, s, steps, n);
    RecordStep(sys, At(sys, s, steps, n), steps[n], t);
    RecordKept(sys, s, steps, n + 1, b, t);
    NextMoment(sys, s, steps, m);
    DroppedStep(sys, At(sys, s, steps, m), steps[m], t);
    StaysLive(sys, s, steps, m + 1, b, t);
    hide At;
  }

  /** Restoring the table brings the grant back to life: it revalidates as if the table had never been dropped. */
  lemma RestoredTableRevives(sys: System, s: State, steps: seq<Step>, o: Origin, r: Reads, n: nat, m: nat)
    requires Granted(sys, s, steps, o) && Finds(sys, s, steps, o, r) && o.past.p <= r.c
    requires DroppedAndRestored(steps, o.past.j, n, m, r.b, o.Table())
    requires PoliciesLeft(sys, s, steps, o.past.p, r.c, o.Table()) && VerdictStands(sys, s, steps, o, r)
    ensures Outcome(sys, s, steps, o, r).Some? && Outcome(sys, s, steps, o, r).value.proof == o.g.proof
  {
    hide At, Outcome, LoadTable, VerdictStands, Echo, Governing, DroppedAndRestored;
    LoadedMeans(sys, s, steps, o.past.j, o.past.cap, o.past.record);
    RestoredRecord(sys, s, steps, o.past.j, n, m, r.b, o.Table());
    PoliciesKept(sys, s, steps, o.past.p, r.c, o.Table());
    UnchangedRevalidates(sys, s, steps, o, r);
  }

  // ---- commits and rules ----

  /** A commit to a live table writes the next version of the given metadata, or of the old, stamped with the
      version and the hash of the request. */
  lemma CommitWrites(sys: System, s: State, t: Ident, metadata: Option<Json>, requestHash: string)
    requires LoadTable(s, t).Some?
    ensures var before := LoadTable(s, t).value;
      var after := LoadTable(Apply(sys, s, Commit(t, metadata, requestHash)), t);
      var base := if metadata.Some? then metadata.value else before.metadata;
      && after.Some? && after.value.version == before.version + 1
      && after.value.metadata.Obj?
      && Get(after.value.metadata.members, LakecatVersion) == Some(Num(before.version + 1))
      && Get(after.value.metadata.members, LastRequestHash) == Some(Str(requestHash))
      && after.value.metadata.members - {LakecatVersion, LastRequestHash}
         == (if base.Obj? then base.members else map[]) - {LakecatVersion, LastRequestHash}
  {
  }

  lemma {:induction false} RulesKept(sys: System, s: State, steps: seq<Step>, n: nat, m: nat)
    requires n <= m <= |steps| && forall i :: n <= i < m ==> !steps[i].Rule?
    ensures At(sys, s, steps, m).engine == At(sys, s, steps, n).engine
    decreases m
  {
    hide Apply;
    if n < m {
      RulesKept(sys, s, steps, n, m - 1);
      NextMoment(sys, s, steps, m - 1);
      RuleStep(sys, At(sys, s, steps, m - 1), steps[m - 1]);
      hide At;
    }
  }

  lemma RuleStep(sys: System, s: State, step: Step)
    ensures Apply(sys, s, step).engine == if step.Rule? then step.engine else s.engine
  {
    hide Prepared, Won, PlanScan, SaveGrant, AuthorityOf, Committed, LoadTable;
  }

  /** The engine in force is the one the last change of rules put in place. */
  lemma LastRuleIsInForce(sys: System, s: State, steps: seq<Step>, n: nat, m: nat, engine: Engine)
    requires n < m <= |steps| && steps[n] == Rule(engine) && forall i :: n < i < m ==> !steps[i].Rule?
    ensures At(sys, s, steps, m).engine == engine
  {
    hide Apply;
    NextMoment(sys, s, steps, n);
    RuleStep(sys, At(sys, s, steps, n), steps[n]);
    RulesKept(sys, s, steps, n + 1, m);
    hide At;
  }
}
