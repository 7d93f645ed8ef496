/** What an authorization under a context-echoing engine establishes, and when credentials are withheld. */
module AuthorizationLaws {
  import opened Json
  import opened Policy
  import opened RestrictionCodec
  import opened Authorization

  // ---- restrictions survive the journey through a context ----

  predicate Codable(r: Restriction) {
    && (r.rowPredicate.Some? ==> r.rowPredicate.value.Obj?)
    && (r.maxTtl.Some? ==> r.maxTtl.value < U64_LIMIT)
  }

  lemma {:induction false} CollectedAll<T>(constraints: seq<Json>, operands: seq<string>, operators: seq<string>,
                                           read: Json -> Option<seq<T>>, ok: T -> bool)
    requires forall v, x :: read(v).Some? && x in read(v).value ==> ok(x)
    requires Collected(constraints, operands, operators, read).Some?
    ensures forall x :: x in Collected(constraints, operands, operators, read).value ==> ok(x)
    decreases |constraints|
  {
    hide LeftOf, OperatorOk, RightOf;
    if constraints != [] {
      CollectedAll(constraints[..|constraints| - 1], operands, operators, read, ok);
    }
  }

  lemma DeclaredPredicatesAreObjects(odrl: Json)
    requires DeclaredPredicates(odrl).Some?
    ensures forall p :: p in DeclaredPredicates(odrl).value ==> p.Obj?
  {
    hide DirectPredicate, Collected, Constraints;
    if DirectPredicate(odrl).None? {
      CollectedAll(Constraints(odrl), PREDICATE_OPERANDS, ["eq"], PredicateValue, (p: Json) => p.Obj?);
    }
  }

  lemma TtlsFit(v: Json)
    ensures JsonldU64(v).Some? ==> JsonldU64(v).value < U64_LIMIT
  {
  }

  lemma {:induction false} PresentTtlsFit(values: seq<Option<Json>>)
    requires PresentTtls(values).Some?
    ensures forall n :: n in PresentTtls(values).value ==> n < U64_LIMIT
  {
    hide JsonldU64;
    if values != [] {
      PresentTtlsFit(values[..|values| - 1]);
      var last := values[|values| - 1];
      if last.Some? {
        TtlsFit(last.value);
      }
    }
  }

  lemma DeclaredTtlsFit(odrl: Json)
    requires DeclaredTtls(odrl).Some?
    ensures forall n :: n in DeclaredTtls(odrl).value ==> n < U64_LIMIT
  {
    hide DirectTtls, Collected, Constraints, JsonldU64, PresentTtls;
    PresentTtlsFit(DirectTtls(odrl));
    forall v {
      TtlsFit(v);
    }
    CollectedAll(Constraints(odrl), TTL_OPERANDS, ["eq", "lteq", "lt"], TtlValue, (n: nat) => n < U64_LIMIT);
  }

  lemma {:induction false} ConjunctionIsObject(predicates: seq<Json>)
    requires predicates != [] && forall p :: p in predicates ==> p.Obj?
    ensures Conjunction(predicates).value.Obj?
  {
  }

  /** Composed restrictions are among those that are read back unchanged. */
  lemma {:induction false} ComposedIsCodable(digest: Json -> string, docs: seq<Json>)
    requires Composed(digest, docs).Some?
    ensures Codable(Composed(digest, docs).value) && |Composed(digest, docs).value.policyHashes| == |docs|
    decreases |docs|
  {
    hide DeclaredColumns, DeclaredPurposes, DeclaredPredicates, DeclaredTtls, AllSame, MinOf, Conjunction;
    if docs != [] {
      ComposedIsCodable(digest, docs[..|docs| - 1]);
      var odrl := docs[|docs| - 1];
      DeclaredPredicatesAreObjects(odrl);
      DeclaredTtlsFit(odrl);
      var predicates := DeclaredPredicates(odrl).value;
      if predicates != [] {
        ConjunctionIsObject(predicates);
      }
    }
  }

  lemma ComposedRoundTrip(h: Hasher, bindings: seq<Binding>)
    requires RestrictionOf(h, bindings).Some?
    ensures var r := RestrictionOf(h, bindings).value;
      && DecodeRestriction(Obj(EncodeRestriction(r))) == Some(r)
      && (r.policyHashes == [] <==> bindings == [])
  {
    hide Composed, EncodeRestriction, DecodeRestriction;
    ComposedIsCodable(h.document, Documents(bindings));
    RestrictionRoundTrip(RestrictionOf(h, bindings).value);
  }

  // ---- identities ----

  predicate KindSpelled(kind: PrincipalKind, name: string) {
    match kind
    case Anonymous => name == "anonymous"
    case Human => name == "human"
    case Service => name == "service"
    case Agent => name == "agent"
  }

  /** The value is an object that names this principal: its subject and its kind. */
  predicate NamesPrincipal(v: Json, p: Principal) {
    && v.Obj? && Get(v.members, DSubject) == Some(Str(p.subject))
    && Get(v.members, DKind).Some? && Get(v.members, DKind).value.Str?
    && KindSpelled(p.kind, Get(v.members, DKind).value.s)
  }

  /** What becomes of an identity: without an envelope nothing; with one it must be verified, a principal that was
      named must be the verified one, and the evidence then says whom the verifier found. */
  lemma VerifyTypedidExactly(verifier: string -> Option<Verification>, identity: Identity, out: Identity)
    ensures VerifyTypedid(verifier, identity) == Some(out) ==>
      if identity.typedid.None? then out == identity
      else
        var verification := verifier(identity.typedid.value);
        && verification.Some? && out.principal == verification.value.principal && out.typedid == identity.typedid
        && (identity.principal.kind == Anonymous || identity.principal == out.principal)
        && Get(out.envelope, DPrincipal).Some? && NamesPrincipal(Get(out.envelope, DPrincipal).value, out.principal)
        && Get(out.envelope, Source) == Some(Str("x-lakecat-typedid-envelope"))
        && Get(out.envelope, Typedid) == Some(Str(out.principal.subject))
        && Get(out.envelope, AttestationState) == Some(Str("verified"))
        && Get(out.envelope, TypedidAttestation) == Some(verification.value.attestation)
    ensures VerifyTypedid(verifier, identity) == Some(out) ==>
      forall k :: k !in {DPrincipal, Source, Typedid, AttestationState, TypedidAttestation} ==>
        Get(out.envelope, k) == Get(identity.envelope, k)
    ensures VerifyTypedid(verifier, identity) == None <==>
      && identity.typedid.Some?
      && (|| verifier(identity.typedid.value) == None
          || (identity.principal.kind != Anonymous
              && identity.principal != verifier(identity.typedid.value).value.principal))
  {
  }

  // ---- what stands in a context ----

  /** The request's context says which warehouse, whose identity and which policies it was made under. */
  lemma ContextSays(warehouse: string, identity: Identity, action: Action, bindings: seq<Binding>,
                    restriction: Option<Restriction>)
    ensures var context := Context(warehouse, identity, action, bindings, restriction);
      && Get(context, Warehouse) == Some(Str(warehouse))
      && Get(context, RequestIdentityKey) == Some(Obj(identity.envelope))
      && Get(context, PolicyBindingsKey).Some? && Get(context, PolicyBindingsKey).value.Arr?
      && |Get(context, PolicyBindingsKey).value.items| == |bindings|
      && forall i :: 0 <= i < |bindings| ==>
           Describes(Get(context, PolicyBindingsKey).value.items[i], bindings[i])
  {
    hide EncodeRestriction, RawException, BindingJson, Describes;
    forall i | 0 <= i < |bindings| ensures Describes(BindingJson(bindings[i]), bindings[i]) {
      BindingDescribed(bindings[i]);
    }
  }

  /** The object describes the binding member by member. */
  predicate Describes(v: Json, b: Binding) {
    && v.Obj?
    && Get(v.members, Other("policy-id")) == Some(Str(b.policyId))
    && Get(v.members, Warehouse) == Some(Str(b.warehouse))
    && Get(v.members, Namespace) == Some(if b.namespace.Some? then StrArr(b.namespace.value) else Null)
    && Get(v.members, Other("table")) == Some(if b.table.Some? then Str(b.table.value) else Null)
    && Get(v.members, Other("enforced")) == Some(Bool(b.enforced)) && Get(v.members, Other("odrl")) == Some(b.odrl)
  }

  lemma BindingDescribed(b: Binding)
    ensures Describes(BindingJson(b), b)
  {
    hide StrArr;
  }

  /** An operation's context is refused exactly when an entry would replace one of the base or one before it. */
  lemma {:induction false} InsertedExactly<K, V>(context: map<K, V>, operation: seq<(K, V)>)
    ensures Inserted(context, operation).Some? <==>
      && (forall i :: 0 <= i < |operation| ==> operation[i].0 !in context)
      && (forall i, j :: 0 <= i < j < |operation| ==> operation[i].0 != operation[j].0)
    decreases |operation|
  {
    if operation != [] {
      var n := |operation| - 1;
      var init := operation[..n];
      InsertedExactly(context, init);
      if Inserted(context, init).Some? {
        InsertedKeys(context, init);
      }
      assert operation == init + [operation[n]];
    }
  }

  lemma {:induction false} InsertedKeys<K, V>(context: map<K, V>, operation: seq<(K, V)>)
    requires Inserted(context, operation).Some?
    ensures forall k :: k in Inserted(context, operation).value <==>
              k in context || exists i :: 0 <= i < |operation| && operation[i].0 == k
    decreases |operation|
  {
    if operation != [] {
      var n := |operation| - 1;
      InsertedKeys(context, operation[..n]);
      assert operation == operation[..n] + [operation[n]];
    }
  }

  /** A receipt gives leave exactly when it allows this action on this table, and the restriction it carries, if any,
      can be read; the leave is then for that restriction, or for an unrestricted read. */
  lemma CapabilityExactly(receipt: Receipt, table: Ident, action: Action)
    ensures var carried := Member(receipt.context, DReadRestriction);
      var cap := ReadCapability(receipt, table, action);
      && (cap.Some? <==>
            && receipt.allowed && receipt.action == action && receipt.table == Some(table)
            && (carried.Some? ==> DecodeRestriction(carried.value).Some?))
      && (cap.Some? ==>
            && cap.value.receipt == receipt && cap.value.table == table
            && cap.value.restriction
               == if carried.Some? then DecodeRestriction(carried.value).value
                  else Restriction(None, None, None, None, []))
  {
    hide DecodeRestriction, Member;
  }

  // ---- receipts of an echoing engine ----

  /** The policy hash a receipt ends up with. */
  function FinalHash(h: Hasher, verdict: Verdict, r: Restriction, action: Action, table: Option<Ident>)
    : Option<string>
  {
    if r.policyHashes == [] then verdict.policyHash
    else Some(h.readPolicy(ReadPolicy(verdict.engine, verdict.policyHash, r.policyHashes, action, table)))
  }

  lemma ContextMembers(warehouse: string, identity: Identity, action: Action, bindings: seq<Binding>,
                       restriction: Option<Restriction>)
    ensures var context := Obj(Context(warehouse, identity, action, bindings, restriction));
      && Member(context, RequestIdentityKey) == Some(Obj(identity.envelope))
      && Member(context, DReadRestriction)
         == (if restriction.Some? then Some(Obj(EncodeRestriction(restriction.value))) else None)
      && Member(context, RawCredentialException)
         == (if restriction.Some? && action == CredentialsVend
             then Some(RawException(restriction.value, identity.principal)) else None)
  {
    hide EncodeRestriction, RawException, BindingsJson;
  }

  /** The context carries this restriction, or carries none and this one has no policies. */
  predicate Carried(context: Object, r: Restriction) {
    var carried := Member(Obj(context), DReadRestriction);
    carried == Some(Obj(EncodeRestriction(r))) || (carried == None && r.policyHashes == [])
  }

  /** The receipt of an echoing engine that gives an allowing verdict. */
  function EchoReceipt(h: Hasher, request: Request, verdict: Verdict, r: Restriction, now: int): Receipt {
    Receipt(request.principal, request.action, request.table, true, verdict.engine,
            FinalHash(h, verdict, r, request.action, request.table), Obj(request.context), now)
  }

  /** What an echoing engine's decision on a request comes to. */
  lemma EchoDecided(h: Hasher, judge: Judge, request: Request, now: int, r: Restriction)
    requires Carried(request.context, r) && DecodeRestriction(Obj(EncodeRestriction(r))) == Some(r)
    ensures var verdict := judge(request, now);
      && (Decided(h, Echo(judge), request, now).Some? <==> verdict.Some? && verdict.value.allowed)
      && (Decided(h, Echo(judge), request, now).Some? ==>
            Decided(h, Echo(judge), request, now).value == EchoReceipt(h, request, verdict.value, r, now))
  {
    hide EncodeRestriction, DecodeRestriction;
  }

  /** A request for reading a table: it is made by the verified principal, and its context is built from the
      policies of the table and the restriction they compose to. */
  lemma PreparedRead(h: Hasher, authority: Authority, identity: Identity, action: Action, table: Ident)
    requires ReadsData(action) && Prepared(h, authority, identity, action, Some(table), []).Some?
    ensures var request := Prepared(h, authority, identity, action, Some(table), []).value;
      var verified := VerifyTypedid(authority.verifier, identity);
      var bindings := authority.bindings(table);
      var r := RestrictionOf(h, bindings);
      && verified.Some? && r.Some?
      && request == Request(verified.value.principal, action, Some(table),
                            Context(table.warehouse, verified.value, action, bindings,
                                    if bindings == [] then None else r))
      && Carried(request.context, r.value) && DecodeRestriction(Obj(EncodeRestriction(r.value))) == Some(r.value)
      && (Member(Obj(request.context), DReadRestriction).None? ==> r.value == UNRESTRICTED)
  {
    hide VerifyTypedid, Composed, EncodeRestriction, DecodeRestriction, Context;
    var verified := VerifyTypedid(authority.verifier, identity).value;
    var bindings := authority.bindings(table);
    assert Documents([]) == [];
    assert RestrictionOf(h, []) == Some(UNRESTRICTED) by { EmptyComposition(h.document); }
    hide RestrictionOf;
    ComposedRoundTrip(h, bindings);
    ContextMembers(table.warehouse, verified, action, bindings,
                   if bindings == [] then None else RestrictionOf(h, bindings));
  }

  /** A capability won from a context-echoing engine: its restriction is the one the table's policies compose
      to, its principal the verified one, and its verdict the engine's on the very request. */
  lemma CapabilityUnderEcho(h: Hasher, authority: Authority, judge: Judge, identity: Identity, action: Action,
                            table: Ident, now: int)
    requires ReadsData(action) && AuthorizeRead(h, authority, Echo(judge), identity, action, table, now).Some?
    ensures var cap := AuthorizeRead(h, authority, Echo(judge), identity, action, table, now).value;
      var verified := VerifyTypedid(authority.verifier, identity);
      var bindings := authority.bindings(table);
      var r := RestrictionOf(h, bindings);
      && verified.Some? && r.Some? && cap.table == table && cap.restriction == r.value
      && var request := Request(verified.value.principal, action, Some(table),
                                Context(table.warehouse, verified.value, action, bindings,
                                        if bindings == [] then None else r));
      && Prepared(h, authority, identity, action, Some(table), []) == Some(request)
      && var verdict := judge(request, now);
      && verdict.Some? && verdict.value.allowed
      && cap.receipt == EchoReceipt(h, request, verdict.value, r.value, now)
  {
    hide VerifyTypedid, RestrictionOf, EncodeRestriction, DecodeRestriction, Context, Decided, Echo, Prepared,
      FinalHash;
    PreparedRead(h, authority, identity, action, table);
    var request := Prepared(h, authority, identity, action, Some(table), []).value;
    EchoDecided(h, judge, request, now, RestrictionOf(h, authority.bindings(table)).value);
  }

  lemma EmptyComposition(digest: Json -> string)
    ensures Composed(digest, []) == Some(UNRESTRICTED)
  {
  }

  // ---- credentials ----

  /** Why no credentials may be vended, if they may not. */
  function BlockReason(cap: Capability): Option<string> {
    var exception := Member(cap.receipt.context, RawCredentialException);
    if exception.Some? then
      if Member(exception.value, Allowed) != Some(Bool(false)) then None
      else
        var reason := Member(exception.value, Reason);
        if reason.Some? && reason.value.Str? then Some(reason.value.s) else Some(FINE_GRAINED)
    else if cap.restriction.RequiresGovernedRead() then Some(FINE_GRAINED) else None
  }

  /** The credentials of the response; the issuer is asked only when nothing blocks them. */
  function LoadCredentials<C>(cap: Capability, issued: Option<seq<C>>): Option<seq<C>> {
    if BlockReason(cap).Some? then Some([]) else issued
  }

  /** Credentials are withheld exactly when the composed policies require a governed read and the
      verified principal is not human; and then none is returned, whatever the issuer would give.  This holds
      for every engine that echoes what it is asked, whatever its verdict rests on. */
  lemma CredentialGate<C>(h: Hasher, authority: Authority, judge: Judge,
                          identity: Identity, table: Ident, now: int, issued: Option<seq<C>>)
    requires AuthorizeRead(h, authority, Echo(judge), identity, CredentialsVend, table, now).Some?
    ensures var cap := AuthorizeRead(h, authority, Echo(judge), identity, CredentialsVend, table, now).value;
      var r := RestrictionOf(h, authority.bindings(table));
      var verified := VerifyTypedid(authority.verifier, identity);
      && r.Some? && verified.Some?
      && var governed := r.value.allowedColumns.Some? || r.value.rowPredicate.Some?;
      && BlockReason(cap) == (if governed && verified.value.principal.kind != Human
                              then Some("fine-grained read restriction requires Sail-planned reads") else None)
      && LoadCredentials(cap, issued) == (if governed && verified.value.principal.kind != Human
                                          then Some([]) else issued)
  {
    hide VerifyTypedid, Composed, EncodeRestriction, Context, Echo, AuthorizeRead, FinalHash, Prepared;
    CapabilityUnderEcho(h, authority, judge, identity, CredentialsVend, table, now);
    var cap := AuthorizeRead(h, authority, Echo(judge), identity, CredentialsVend, table, now).value;
    var bindings := authority.bindings(table);
    var r := RestrictionOf(h, bindings).value;
    var verified := VerifyTypedid(authority.verifier, identity).value;
    assert Documents([]) == [];
    EmptyComposition(h.document);
    ContextMembers(table.warehouse, verified, CredentialsVend, bindings, if bindings == [] then None else Some(r));
    hide RestrictionOf;
    if bindings != [] {
      RawExceptionMembers(r, verified.principal);
    }
  }

  lemma RawExceptionMembers(r: Restriction, p: Principal)
    ensures var e := RawException(r, p); var governed := r.RequiresGovernedRead();
      && Member(e, Allowed) == Some(Bool(!governed || p.kind.Human?))
      && Member(e, Reason) == Some(Str(if !governed then COMPATIBLE else if p.kind.Human? then TRUSTED_HUMAN
                                       else FINE_GRAINED))
  {
  }
}
