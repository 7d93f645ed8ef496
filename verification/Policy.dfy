/** Read restrictions composed from ODRL policy documents.

    `None` as an outcome is the code's error return: a malformed document (an invalid
    argument) or two different purposes (a conflict). */
module Policy {
  import opened Json
  import opened Text
  import opened Columns

  datatype Restriction = Restriction(
    allowedColumns: Option<seq<string>>, rowPredicate: Option<Json>, purpose: Option<string>,
    maxTtl: Option<nat>, policyHashes: seq<string>)
  {
    predicate RequiresGovernedRead() {
      allowedColumns.Some? || rowPredicate.Some?
    }
  }

  const UNRESTRICTED := Restriction(None, None, None, None, [])

  // ---- reading values ----

  function Or<T>(a: Option<T>, b: Option<T>): Option<T> {
    if a.Some? then a else b
  }

  /** A member of a nested object. */
  function Nested(v: Json, outer: Key, inner: Key): Option<Json> {
    var o :- Member(v, outer); Member(o, inner)
  }

  function JsonldTerm(v: Json): Option<string> {
    if v.Str? then Some(v.s) else var id :- Member(v, AtId); AsStr(id)
  }

  function JsonldString(v: Json): Option<string> {
    if v.Str? then Some(v.s) else var s :- Member(v, AtValue); AsStr(s)
  }

  function NonblankJsonldString(v: Json): Option<string> {
    var s :- JsonldString(v);
    if Blank(s) then None else Some(s)
  }

  /** `str::parse::<u64>`: digits, after at most one plus sign, that fit. */
  function ParseU64(s: string): Option<nat> {
    var digits := if s != "" && s[0] == '+' then s[1..] else s;
    if digits == "" then None else
    var n :- Digits(digits);
    if n < U64_LIMIT then Some(n) else None
  }

  function JsonldU64(v: Json): Option<nat> {
    if AsU64(v).Some? then AsU64(v) else
    var x :- Member(v, AtValue);
    if AsU64(x).Some? then AsU64(x) else var s :- AsStr(x); ParseU64(s)
  }

  function NonblankStrings(items: seq<Json>): Option<seq<string>> {
    if items == [] then Some([]) else
    var init :- NonblankStrings(items[..|items| - 1]);
    var last :- NonblankJsonldString(items[|items| - 1]);
    Some(init + [last])
  }

  /** The strings of an array, of an `@list`, or of a single string. */
  function RawStrings(v: Json): Option<seq<string>> {
    if v.Arr? then NonblankStrings(v.items)
    else if Member(v, AtList).Some? then
      var items :- AsArr(Member(v, AtList).value);
      NonblankStrings(items)
    else
      var s :- NonblankJsonldString(v);
      Some([s])
  }

  /** A list of strings: never empty, never blank, no repetition. */
  function StringList(v: Json): Option<seq<string>> {
    var raw :- RawStrings(v);
    if raw == [] then None else Some(FirstOccurrences(raw))
  }

  // ---- constraints ----

  function AsSlice(v: Option<Json>): seq<Json> {
    match v
    case None => []
    case Some(Arr(items)) => items
    case Some(x) => [x]
  }

  function PermissionConstraints(permissions: seq<Json>): seq<Json> {
    if permissions == [] then []
    else
      var last := permissions[|permissions| - 1];
      PermissionConstraints(permissions[..|permissions| - 1]) + AsSlice(Member(last, Constraint))
  }

  function Constraints(odrl: Json): seq<Json> {
    PermissionConstraints(AsSlice(Member(odrl, Permission))) + AsSlice(Member(odrl, Constraint))
  }

  function LeftOf(c: Json): string {
    var operand := Or(Or(Member(c, LeftOperand), Member(c, DLeftOperand)), Member(c, OdrlLeftOperand));
    var term := if operand.Some? then JsonldTerm(operand.value) else None;
    if term.Some? then term.value else ""
  }

  function RightOf(c: Json): Option<Json> {
    Or(Or(Member(c, RightOperand), Member(c, DRightOperand)), Member(c, OdrlRightOperand))
  }

  const ODRL_PREFIX := "odrl:"
  const ODRL_IRI := "http://www.w3.org/ns/odrl/2/"

  predicate OperatorOk(c: Json, allowed: seq<string>) {
    var operator := Or(Member(c, Operator), Member(c, OdrlOperator));
    && operator.Some?
    && JsonldTerm(operator.value).Some?
    && var term := JsonldTerm(operator.value).value;
       var normalized :=
         if ODRL_PREFIX <= term then term[|ODRL_PREFIX|..]
         else if ODRL_IRI <= term then term[|ODRL_IRI|..] else term;
       normalized in allowed
  }

  /** What a constraint contributes when its left operand and operator are the wanted ones. */
  function Clause<T>(c: Json, operands: seq<string>, operators: seq<string>, read: Json -> Option<seq<T>>)
    : Option<seq<T>>
  {
    if LeftOf(c) !in operands then Some([])
    else if !OperatorOk(c, operators) then None
    else var right :- RightOf(c); read(right)
  }

  function Collected<T>(constraints: seq<Json>, operands: seq<string>, operators: seq<string>,
                        read: Json -> Option<seq<T>>): Option<seq<T>>
  {
    if constraints == [] then Some([]) else
    var init :- Collected(constraints[..|constraints| - 1], operands, operators, read);
    var last :- Clause(constraints[|constraints| - 1], operands, operators, read);
    Some(init + last)
  }

  method CollectClauses<T>(odrl: Json, operands: seq<string>, operators: seq<string>,
                           read: Json -> Option<seq<T>>)
    returns (clauses: Option<seq<T>>)
    ensures clauses == Collected(Constraints(odrl), operands, operators, read)
  {
    hide Clause, Constraints;
    var constraints := Constraints(odrl);
    clauses := Some([]);
    assert constraints[..0] == [];
    for i := 0 to |constraints|
      invariant clauses == Collected(constraints[..i], operands, operators, read)
    {
      assert constraints[..i + 1][..i] == constraints[..i];
      if clauses.Some? {
        var clause := Clause(constraints[i], operands, operators, read);
        clauses := if clause.Some? then Some(clauses.value + clause.value) else None;
      }
    }
    assert constraints[..|constraints|] == constraints;
  }

  // ---- one document ----

  const COLUMN_OPERANDS := ["column", "columns", "allowed-columns", "allowedColumns", "lakecat:allowed-columns"]
  const PREDICATE_OPERANDS := ["row-predicate", "rowPredicate", "lakecat:row-predicate"]
  const PURPOSE_OPERANDS := ["purpose", "lakecat:purpose"]
  const TTL_OPERANDS :=
    ["max-credential-ttl-seconds", "maxCredentialTtlSeconds", "credential-ttl", "credentialTtl",
     "lakecat:max-credential-ttl-seconds", "lakecat:credential-ttl"]

  function DirectColumns(odrl: Json): Option<Json> {
    Or(Member(odrl, DAllowedColumns), Or(Member(odrl, AllowedColumns), Or(Member(odrl, Columns),
    Or(Nested(odrl, LakecatReadRestriction, DAllowedColumns), Or(Nested(odrl, LakecatReadRestriction, AllowedColumns),
    Or(Nested(odrl, DReadRestriction, DAllowedColumns), Nested(odrl, ReadRestriction, AllowedColumns)))))))
  }

  function DirectPredicate(odrl: Json): Option<Json> {
    Or(Member(odrl, DRowPredicate), Or(Member(odrl, RowPredicate), Or(Member(odrl, LakecatRowPredicate),
    Or(Nested(odrl, LakecatReadRestriction, DRowPredicate), Or(Nested(odrl, LakecatReadRestriction, RowPredicate),
    Or(Nested(odrl, DReadRestriction, DRowPredicate), Nested(odrl, ReadRestriction, RowPredicate)))))))
  }

  function DirectTtls(odrl: Json): seq<Option<Json>> {
    [Member(odrl, DMaxTtl), Member(odrl, MaxTtl),
     Nested(odrl, LakecatReadRestriction, DMaxTtl), Nested(odrl, LakecatReadRestriction, MaxTtl),
     Nested(odrl, DReadRestriction, DMaxTtl), Nested(odrl, ReadRestriction, MaxTtl)]
  }

  function PredicateValue(v: Json): Option<seq<Json>> {
    if v.Obj? then Some([v]) else None
  }

  function PurposeValue(v: Json): Option<seq<string>> {
    var s :- NonblankJsonldString(v); Some([s])
  }

  function TtlValue(v: Json): Option<seq<nat>> {
    var n :- JsonldU64(v); Some([n])
  }

  function PresentTtls(values: seq<Option<Json>>): Option<seq<nat>> {
    if values == [] then Some([]) else
    var init :- PresentTtls(values[..|values| - 1]);
    if values[|values| - 1].None? then Some(init) else
    var last :- TtlValue(values[|values| - 1].value);
    Some(init + last)
  }

  /** Everything one document declares.  A direct key pre-empts the constraints for columns and for
      the row predicate; purposes and TTLs are gathered from both. */
  datatype Declared = Declared(
    columns: Option<seq<string>>, predicates: seq<Json>, purposes: seq<string>, ttls: seq<nat>)

  function DeclaredColumns(odrl: Json): Option<Option<seq<string>>> {
    var direct := DirectColumns(odrl);
    if direct.Some? then
      var columns :- StringList(direct.value); Some(Some(columns))
    else
      var columns :- Collected(Constraints(odrl), COLUMN_OPERANDS, ["eq", "isAnyOf", "isAllOf"], StringList);
      Some(if columns == [] then None else Some(FirstOccurrences(columns)))
  }

  function DeclaredPredicates(odrl: Json): Option<seq<Json>> {
    var direct := DirectPredicate(odrl);
    if direct.Some? then PredicateValue(direct.value)
    else Collected(Constraints(odrl), PREDICATE_OPERANDS, ["eq"], PredicateValue)
  }

  function DeclaredPurposes(odrl: Json): Option<seq<string>> {
    var direct :- (if Member(odrl, Purpose).Some? then PurposeValue(Member(odrl, Purpose).value) else Some([]));
    var more :- Collected(Constraints(odrl), PURPOSE_OPERANDS, ["eq"], PurposeValue);
    Some(direct + more)
  }

  function DeclaredTtls(odrl: Json): Option<seq<nat>> {
    var direct :- PresentTtls(DirectTtls(odrl));
    var more :- Collected(Constraints(odrl), TTL_OPERANDS, ["eq", "lteq", "lt"], TtlValue);
    Some(direct + more)
  }

  function Read(odrl: Json): Option<Declared> {
    var columns :- DeclaredColumns(odrl);
    var predicates :- DeclaredPredicates(odrl);
    var purposes :- DeclaredPurposes(odrl);
    var ttls :- DeclaredTtls(odrl);
    Some(Declared(columns, predicates, purposes, ttls))
  }

  // ---- combining ----

  function And(left: Json, right: Json): Json {
    Obj(map[Type := Str("and"), Left := left, Right := right])
  }

  function Conjunction(predicates: seq<Json>): (r: Option<Json>)
    ensures r.None? <==> predicates == []
  {
    if predicates == [] then None else
    var init := Conjunction(predicates[..|predicates| - 1]);
    var last := predicates[|predicates| - 1];
    Some(if init.Some? then And(init.value, last) else last)
  }

  predicate AllSame<T(==)>(s: seq<T>) {
    forall x, y :: x in s && y in s ==> x == y
  }

  function MinOf(s: seq<nat>): (r: Option<nat>)
    ensures r.None? <==> s == []
    ensures r.Some? ==> r.value in s && forall x :: x in s ==> r.value <= x
  {
    if s == [] then None else
    var init, last := MinOf(s[..|s| - 1]), s[|s| - 1];
    assert s == s[..|s| - 1] + [last];
    Some(if init.Some? && init.value < last then init.value else last)
  }

  function Tighten(existing: Option<nat>, next: Option<nat>): Option<nat> {
    if existing.Some? && next.Some? then Some(if existing.value < next.value then existing.value else next.value)
    else Or(existing, next)
  }

  /** One document's constraints folded into the restriction so far. */
  function Merged(r: Restriction, d: Declared, hash: string): Option<Restriction> {
    if !AllSame(d.purposes) then None
    else if d.purposes != [] && r.purpose.Some? && r.purpose.value != d.purposes[0] then None
    else
      var predicate_ := Conjunction(d.predicates);
      Some(Restriction(
        if d.columns.None? then r.allowedColumns
        else if r.allowedColumns.None? then d.columns
        else Some(Retained(r.allowedColumns.value, d.columns.value)),
        if predicate_.None? then r.rowPredicate
        else if r.rowPredicate.None? then predicate_
        else Some(And(r.rowPredicate.value, predicate_.value)),
        if d.purposes != [] then Some(d.purposes[0]) else r.purpose,
        Tighten(r.maxTtl, MinOf(d.ttls)),
        r.policyHashes + [hash]))
  }

  function Composed(digest: Json -> string, docs: seq<Json>): Option<Restriction> {
    if docs == [] then Some(UNRESTRICTED) else
    var r :- Composed(digest, docs[..|docs| - 1]);
    var odrl := docs[|docs| - 1];
    var d :- Read(odrl);
    Merged(r, d, digest(odrl))
  }

  // ---- the extraction and the fold, as the code runs them ----

  method ColumnsFromOdrl(odrl: Json) returns (r: Option<Option<seq<string>>>)
    ensures r == DeclaredColumns(odrl)
  {
    hide DirectColumns, Collected, Constraints;
    var direct := DirectColumns(odrl);
    if direct.Some? {
      var columns := StringList(direct.value);
      return if columns.Some? then Some(Some(columns.value)) else None;
    }
    var columns := CollectClauses(odrl, COLUMN_OPERANDS, ["eq", "isAnyOf", "isAllOf"], StringList);
    if columns.None? {
      return None;
    }
    if columns.value == [] {
      return Some(None);
    }
    var unique := DedupColumns(columns.value);
    return Some(Some(unique));
  }

  method PredicateFromOdrl(odrl: Json) returns (r: Option<Option<Json>>)
    ensures r == if DeclaredPredicates(odrl).None? then None else Some(Conjunction(DeclaredPredicates(odrl).value))
  {
    hide DirectPredicate, Collected, Constraints, And;
    var direct := DirectPredicate(odrl);
    var predicates: Option<seq<Json>>;
    if direct.Some? {
      predicates := PredicateValue(direct.value);
    } else {
      predicates := CollectClauses(odrl, PREDICATE_OPERANDS, ["eq"], PredicateValue);
    }
    if predicates.None? {
      return None;
    }
    var all := predicates.value;
    var conjunction: Option<Json> := None;
    assert all[..0] == [];
    for i := 0 to |all|
      invariant conjunction == Conjunction(all[..i])
    {
      assert all[..i + 1][..i] == all[..i];
      conjunction := Some(if conjunction.Some? then And(conjunction.value, all[i]) else all[i]);
    }
    assert all[..|all|] == all;
    return Some(conjunction);
  }

  method PurposeFromOdrl(odrl: Json) returns (r: Option<Option<string>>)
    ensures r == var purposes := DeclaredPurposes(odrl);
                 if purposes.None? || !AllSame(purposes.value) then None
                 else if purposes.value == [] then Some(None) else Some(Some(purposes.value[0]))
  {
    hide Collected, Constraints, PurposeValue;
    var direct := if Member(odrl, Purpose).Some? then PurposeValue(Member(odrl, Purpose).value) else Some([]);
    if direct.None? {
      return None;
    }
    var more := CollectClauses(odrl, PURPOSE_OPERANDS, ["eq"], PurposeValue);
    if more.None? {
      return None;
    }
    var all := direct.value + more.value;
    var purpose: Option<string> := None;
    for i := 0 to |all|
      invariant purpose == if i == 0 then None else Some(all[0])
      invariant forall j :: 0 <= j < i ==> all[j] == all[0]
    {
      if purpose.Some? && purpose.value != all[i] {
        assert all[i] in all && all[0] in all;
        return None;
      }
      purpose := Some(all[i]);
    }
    return Some(purpose);
  }

  method TtlFromOdrl(odrl: Json) returns (r: Option<Option<nat>>)
    ensures r == if DeclaredTtls(odrl).None? then None else Some(MinOf(DeclaredTtls(odrl).value))
  {
    hide Collected, Constraints, TtlValue, DirectTtls;
    var values := DirectTtls(odrl);
    var direct: seq<nat> := [];
    assert values[..0] == [];
    for i := 0 to |values|
      invariant PresentTtls(values[..i]) == Some(direct)
    {
      assert values[..i + 1][..i] == values[..i];
      if values[i].Some? {
        var ttl := TtlValue(values[i].value);
        if ttl.None? {
          MalformedTtl(values, i + 1);
          return None;
        }
        direct := direct + ttl.value;
      }
    }
    assert values[..|values|] == values;
    var more := CollectClauses(odrl, TTL_OPERANDS, ["eq", "lteq", "lt"], TtlValue);
    if more.None? {
      return None;
    }
    var all := direct + more.value;
    var ttl: Option<nat> := None;
    assert all[..0] == [];
    for i := 0 to |all|
      invariant ttl == MinOf(all[..i])
    {
      assert all[..i + 1][..i] == all[..i];
      ttl := Tighten(ttl, Some(all[i]));
    }
    assert all[..|all|] == all;
    return Some(ttl);
  }

  lemma {:induction false} MalformedTtl(values: seq<Option<Json>>, n: nat)
    requires n <= |values| && PresentTtls(values[..n]).None?
    ensures PresentTtls(values).None?
    decreases |values|
  {
    if n < |values| {
      var init := values[..|values| - 1];
      assert init[..n] == values[..n];
      MalformedTtl(init, n);
    } else {
      assert values[..n] == values;
    }
  }

  /** The fold over the documents, reading and merging one after the other. */
  method FromOdrlPolicies(digest: Json -> string, docs: seq<Json>) returns (r: Option<Restriction>)
    ensures r == Composed(digest, docs)
  {
    hide DeclaredColumns, DeclaredPredicates, DeclaredPurposes, DeclaredTtls, AllSame, Conjunction, MinOf;
    var restriction := UNRESTRICTED;
    assert docs[..0] == [];
    for i := 0 to |docs|
      invariant Composed(digest, docs[..i]) == Some(restriction)
    {
      var odrl := docs[i];
      assert docs[..i + 1][..i] == docs[..i];
      var next := MergePolicy(digest, restriction, odrl);
      if next.None? {
        StaysFailed(digest, docs, i + 1);
        return None;
      }
      restriction := next.value;
    }
    assert docs[..|docs|] == docs;
    return Some(restriction);
  }

  method MergePolicy(digest: Json -> string, restriction: Restriction, odrl: Json) returns (r: Option<Restriction>)
    ensures r == if Read(odrl).None? then None else Merged(restriction, Read(odrl).value, digest(odrl))
  {
    hide DeclaredColumns, DeclaredPredicates, DeclaredPurposes, DeclaredTtls, AllSame, Conjunction, MinOf;
    var next := restriction.(policyHashes := restriction.policyHashes + [digest(odrl)]);
    var columns := ColumnsFromOdrl(odrl);
    if columns.None? {
      return None;
    }
    if columns.value.Some? {
      if next.allowedColumns.Some? {
        var both := RetainAllowedColumns(next.allowedColumns.value, columns.value.value);
        next := next.(allowedColumns := Some(both));
      } else {
        next := next.(allowedColumns := columns.value);
      }
    }
    var rowPredicate := PredicateFromOdrl(odrl);
    if rowPredicate.None? {
      return None;
    }
    if rowPredicate.value.Some? {
      next := next.(rowPredicate := Some(
        if next.rowPredicate.Some? then And(next.rowPredicate.value, rowPredicate.value.value)
        else rowPredicate.value.value));
    }
    var purpose := PurposeFromOdrl(odrl);
    if purpose.None? {
      return None;
    }
    if purpose.value.Some? {
      if next.purpose.Some? && next.purpose.value != purpose.value.value {
        return None;
      }
      next := next.(purpose := purpose.value);
    }
    var ttl := TtlFromOdrl(odrl);
    if ttl.None? {
      return None;
    }
    if ttl.value.Some? {
      next := next.(maxTtl := Tighten(next.maxTtl, ttl.value));
    }
    return Some(next);
  }

  lemma {:induction false} StaysFailed(digest: Json -> string, docs: seq<Json>, n: nat)
    requires n <= |docs| && Composed(digest, docs[..n]).None?
    ensures Composed(digest, docs).None?
    decreases |docs|
  {
    hide Read, Merged;
    if n < |docs| {
      var init := docs[..|docs| - 1];
      assert init[..n] == docs[..n];
      StaysFailed(digest, init, n);
    } else {
      assert docs[..n] == docs;
    }
  }
}
