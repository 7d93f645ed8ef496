/** Authorization of one table operation: who asks, which policies bind the table, what restriction
    they compose to, and how that restriction travels inside a receipt.

    `None` as an outcome is an error return. */
module Authorization {
  import opened Json
  import opened Policy
  import opened RestrictionCodec

  datatype PrincipalKind = Anonymous | Human | Service | Agent
  datatype Principal = Principal(subject: string, kind: PrincipalKind)
  datatype Action = TablePlanScan | CredentialsVend | OtherAction(name: string)
  datatype Ident = Ident(warehouse: string, namespace: seq<string>, name: string)

  datatype Request = Request(principal: Principal, action: Action, table: Option<Ident>, context: Object)

  datatype Receipt = Receipt(
    principal: Principal, action: Action, table: Option<Ident>, allowed: bool, engine: string,
    policyHash: Option<string>, context: Json, checkedAt: int)

  /** A governance engine answers a request at a time. */
  type Engine = (Request, int) -> Option<Receipt>

  /** What a restriction's policies contribute to the policy hash of a receipt. */
  datatype ReadPolicy = ReadPolicy(
    engine: string, governanceHash: Option<string>, policyHashes: seq<string>, action: Action, table: Option<Ident>)

  /** The content digests in use here: of a policy document and of a read policy. */
  datatype Hasher = Hasher(document: Json -> string, readPolicy: ReadPolicy -> string)

  // ---- policy bindings ----

  datatype Binding = Binding(
    policyId: string, warehouse: string, namespace: Option<seq<string>>, table: Option<string>,
    enforced: bool, odrl: Json)

  predicate AppliesTo(b: Binding, t: Ident) {
    && b.warehouse == t.warehouse
    && match (b.namespace, b.table)
       case (None, None) => true
       case (Some(namespace), None) => namespace == t.namespace
       case (Some(namespace), Some(name)) => namespace == t.namespace && name == t.name
       case (None, Some(_)) => false
  }

  function Documents(bindings: seq<Binding>): seq<Json> {
    seq(|bindings|, i requires 0 <= i < |bindings| => bindings[i].odrl)
  }

  function RestrictionOf(h: Hasher, bindings: seq<Binding>): Option<Restriction> {
    Composed(h.document, Documents(bindings))
  }

  function BindingJson(b: Binding): Json {
    Obj(map[Other("policy-id") := Str(b.policyId), Warehouse := Str(b.warehouse),
            Namespace := (if b.namespace.Some? then StrArr(b.namespace.value) else Null),
            Other("table") := (if b.table.Some? then Str(b.table.value) else Null),
            Other("enforced") := Bool(b.enforced), Other("odrl") := b.odrl])
  }

  function BindingsJson(bindings: seq<Binding>): Json {
    Arr(seq(|bindings|, i requires 0 <= i < |bindings| => BindingJson(bindings[i])))
  }

  // ---- identity ----

  function KindName(k: PrincipalKind): string {
    match k
    case Anonymous => "anonymous"
    case Human => "human"
    case Service => "service"
    case Agent => "agent"
  }

  function PrincipalJson(p: Principal): Json {
    Obj(map[DSubject := Str(p.subject), DKind := Str(KindName(p.kind))])
  }

  datatype Identity = Identity(principal: Principal, envelope: Object, typedid: Option<string>)
  datatype Verification = Verification(principal: Principal, attestation: Json)

  /** An identity that carries a TypeDID envelope becomes the verified one, unless it named another. */
  function VerifyTypedid(verifier: string -> Option<Verification>, identity: Identity): Option<Identity> {
    if identity.typedid.None? then Some(identity) else
    var verification :- verifier(identity.typedid.value);
    if !identity.principal.kind.Anonymous? && identity.principal != verification.principal then None
    else Some(Identity(
      verification.principal,
      identity.envelope[DPrincipal := PrincipalJson(verification.principal)]
                       [Source := Str("x-lakecat-typedid-envelope")]
                       [Typedid := Str(verification.principal.subject)]
                       [AttestationState := Str("verified")]
                       [TypedidAttestation := verification.attestation],
      identity.typedid))
  }

  // ---- the authorization ----

  const COMPATIBLE := "restriction is compatible with short-lived credential vending"
  const TRUSTED_HUMAN := "trusted human principal may use audited raw credential vending"
  const FINE_GRAINED := "fine-grained read restriction requires Sail-planned reads"

  function RawException(r: Restriction, p: Principal): Json {
    var governed, human := r.RequiresGovernedRead(), p.kind.Human?;
    Obj(map[Requested := Bool(true), Allowed := Bool(!governed || human),
            Reason := Str(if !governed then COMPATIBLE else if human then TRUSTED_HUMAN else FINE_GRAINED)])
  }

  predicate ReadsData(action: Action) {
    action == TablePlanScan || action == CredentialsVend
  }

  /** The restriction takes part when the action reads data and some policy binds the table. */
  function ContextRestriction(h: Hasher, action: Action, bindings: seq<Binding>): Option<Option<Restriction>> {
    if !ReadsData(action) || bindings == [] then Some(None) else
    var r :- RestrictionOf(h, bindings); Some(Some(r))
  }

  function BaseContext(warehouse: string, identity: Identity, bindings: seq<Binding>): Object {
    map[Warehouse := Str(warehouse), RequestIdentityKey := Obj(identity.envelope),
        PolicyBindingsKey := BindingsJson(bindings)]
  }

  function Context(warehouse: string, identity: Identity, action: Action, bindings: seq<Binding>,
                   restriction: Option<Restriction>): Object
  {
    BaseContext(warehouse, identity, bindings)
    + (if restriction.Some? then map[DReadRestriction := Obj(EncodeRestriction(restriction.value))] else map[])
    + (if restriction.Some? && action == CredentialsVend
       then map[RawCredentialException := RawException(restriction.value, identity.principal)] else map[])
  }

  /** A receipt that carries a restriction with policies gets a policy hash that covers them. */
  function WithPolicyHash(h: Hasher, receipt: Receipt): Option<Receipt> {
    var carried := Member(receipt.context, DReadRestriction);
    if carried.None? then Some(receipt) else
    var restriction :- DecodeRestriction(carried.value);
    if restriction.policyHashes == [] then Some(receipt)
    else Some(receipt.(policyHash := Some(h.readPolicy(ReadPolicy(
      receipt.engine, receipt.policyHash, restriction.policyHashes, receipt.action, receipt.table)))))
  }

  function Decided(h: Hasher, engine: Engine, request: Request, now: int): Option<Receipt> {
    var receipt :- engine(request, now);
    if receipt.allowed then WithPolicyHash(h, receipt) else None
  }

  /** The context with an operation's entries inserted; none may replace an entry. */
  function Inserted<K, V>(context: map<K, V>, operation: seq<(K, V)>): Option<map<K, V>> {
    if operation == [] then Some(context) else
    var init :- Inserted(context, operation[..|operation| - 1]);
    var last := operation[|operation| - 1];
    if last.0 in init then None else Some(init[last.0 := last.1])
  }

  /** What a request is prepared from; `bindings` is the store's answer for a table. */
  datatype Authority = Authority(
    verifier: string -> Option<Verification>, bindings: Ident -> seq<Binding>, warehouse: string)

  function TableBindings(authority: Authority, table: Option<Ident>): seq<Binding> {
    if table.Some? then authority.bindings(table.value) else []
  }

  /** The request that is put to the engine. */
  function Prepared(h: Hasher, authority: Authority, identity: Identity, action: Action, table: Option<Ident>,
                    operation: seq<(Key, Json)>): Option<Request>
  {
    var verified :- VerifyTypedid(authority.verifier, identity);
    var bindings := TableBindings(authority, table);
    var restriction :- ContextRestriction(h, action, bindings);
    var warehouse := if table.Some? then table.value.warehouse else authority.warehouse;
    var context := Context(warehouse, verified, action, bindings, restriction);
    var whole :- Inserted(context, operation);
    Some(Request(verified.principal, action, table, whole))
  }

  /** The receipt of an authorized operation. */
  function Authorized(h: Hasher, authority: Authority, engine: Engine, identity: Identity, action: Action,
                      table: Option<Ident>, operation: seq<(Key, Json)>, now: int): Option<Receipt>
  {
    var request :- Prepared(h, authority, identity, action, table, operation);
    Decided(h, engine, request, now)
  }

  /** The code's own steps: the context is built up member by member, and an operation that would
      replace a member of it is refused. */
  method AuthorizeWithOperationContext(h: Hasher, authority: Authority, engine: Engine, identity: Identity,
                                       action: Action, table: Option<Ident>, operation: seq<(Key, Json)>, now: int)
    returns (receipt: Option<Receipt>)
    ensures receipt == Authorized(h, authority, engine, identity, action, table, operation, now)
  {
    hide VerifyTypedid, RestrictionOf, EncodeRestriction, RawException, BindingsJson, Decided, TableBindings;
    var verified := VerifyTypedid(authority.verifier, identity);
    if verified.None? {
      return None;
    }
    var principal := verified.value.principal;
    var bindings := TableBindings(authority, table);
    var restriction := None;
    if ReadsData(action) && bindings != [] {
      restriction := RestrictionOf(h, bindings);
      if restriction.None? {
        return None;
      }
    }
    var warehouse := if table.Some? then table.value.warehouse else authority.warehouse;
    var context := BaseContext(warehouse, verified.value, bindings);
    if restriction.Some? {
      context := context[DReadRestriction := Obj(EncodeRestriction(restriction.value))];
      if action == CredentialsVend {
        context := context[RawCredentialException := RawException(restriction.value, principal)];
      }
    }
    assert context == Context(warehouse, verified.value, action, bindings, restriction);
    hide Context, BaseContext;
    var whole := InsertAll(context, operation);
    if whole.None? {
      return None;
    }
    receipt := Decided(h, engine, Request(principal, action, table, whole.value), now);
  }

  method InsertAll<K, V>(context: map<K, V>, operation: seq<(K, V)>) returns (whole: Option<map<K, V>>)
    ensures whole == Inserted(context, operation)
  {
    whole := Some(context);
    assert operation[..0] == [];
    for i := 0 to |operation|
      invariant whole.Some? && whole == Inserted(context, operation[..i])
    {
      assert operation[..i + 1][..i] == operation[..i];
      if operation[i].0 in whole.value {
        StaysRefused(context, operation, i + 1);
        return None;
      }
      whole := Some(whole.value[operation[i].0 := operation[i].1]);
    }
    assert operation[..|operation|] == operation;
  }

  lemma {:induction false} StaysRefused<K, V>(context: map<K, V>, operation: seq<(K, V)>, n: nat)
    requires n <= |operation| && Inserted(context, operation[..n]).None?
    ensures Inserted(context, operation).None?
    decreases |operation|
  {
    if n < |operation| {
      var init := operation[..|operation| - 1];
      assert init[..n] == operation[..n];
      StaysRefused(context, init, n);
    } else {
      assert operation[..n] == operation;
    }
  }

  /** An operation's own context never replaces what the authorization put there, and is carried whole. */
  lemma {:induction false} ContextIsKept<K, V>(context: map<K, V>, operation: seq<(K, V)>)
    requires Inserted(context, operation).Some?
    ensures var whole := Inserted(context, operation).value;
      && (forall k :: k in context ==> k in whole && whole[k] == context[k])
      && (forall e :: e in operation ==> e.0 in whole && e.0 !in context && whole[e.0] == e.1)
      && |whole| == |context| + |operation|
    decreases |operation|
  {
    if operation != [] {
      var init, last := operation[..|operation| - 1], operation[|operation| - 1];
      assert operation == init + [last];
      ContextIsKept(context, init);
      var sofar := Inserted(context, init).value;
      assert sofar[last.0 := last.1].Keys == sofar.Keys + {last.0};
    }
  }

  // ---- capabilities ----

  /** Leave to read one table under a restriction. */
  datatype Capability = Capability(receipt: Receipt, table: Ident, restriction: Restriction)

  function ReadCapability(receipt: Receipt, table: Ident, action: Action): Option<Capability> {
    if !receipt.allowed || receipt.action != action || receipt.table != Some(table) then None else
    var carried := Member(receipt.context, DReadRestriction);
    if carried.None? then Some(Capability(receipt, table, UNRESTRICTED)) else
    var restriction :- DecodeRestriction(carried.value);
    Some(Capability(receipt, table, restriction))
  }

  /** What an engine's answer to a request for a table gives leave to. */
  function Won(h: Hasher, engine: Engine, request: Request, now: int): Option<Capability> {
    var table :- request.table;
    var receipt :- Decided(h, engine, request, now);
    ReadCapability(receipt, table, request.action)
  }

  function AuthorizeRead(h: Hasher, authority: Authority, engine: Engine, identity: Identity, action: Action,
                         table: Ident, now: int): Option<Capability>
  {
    var request :- Prepared(h, authority, identity, action, Some(table), []);
    Won(h, engine, request, now)
  }

  // ---- engines that echo what they are asked ----

  datatype Verdict = Verdict(allowed: bool, engine: string, policyHash: Option<string>)

  /** A verdict may depend on the whole request, its context included, and on the time. */
  type Judge = (Request, int) -> Option<Verdict>

  /** The engine that returns principal, action, table and context as it was given them, with the verdict.
      Every context-echoing engine is of this form. */
  function Echo(judge: Judge): Engine {
    (request: Request, now: int) =>
      var verdict := judge(request, now);
      if verdict.None? then None
      else Some(Receipt(request.principal, request.action, request.table, verdict.value.allowed,
                        verdict.value.engine, verdict.value.policyHash, Obj(request.context), now))
  }
}
