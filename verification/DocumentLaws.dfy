/** What one policy document declares, said of its JSON. */
module DocumentLaws {
  import opened Json
  import opened Columns
  import opened Policy
  import opened PolicyReaders

  // ---- constraints ----

  /** The value is this one, or has it as an item. */
  predicate HeldIn(v: Option<Json>, x: Json) {
    v.Some? && if v.value.Arr? then x in v.value.items else x == v.value
  }

  lemma SliceHolds(v: Option<Json>, x: Json)
    ensures x in AsSlice(v) <==> HeldIn(v, x)
  {
  }

  lemma {:induction false} PermissionConstraintsMeaning(permissions: seq<Json>)
    ensures forall c :: c in PermissionConstraints(permissions)
                   <==> exists p :: p in permissions && c in AsSlice(Member(p, Constraint))
  {
    hide AsSlice, Member;
    if permissions != [] {
      var init, last := permissions[..|permissions| - 1], permissions[|permissions| - 1];
      assert permissions == init + [last];
      PermissionConstraintsMeaning(init);
    }
  }

  /** The constraints of a document are its own and those of its permissions. */
  lemma ConstraintsMeaning(odrl: Json, c: Json)
    ensures c in Constraints(odrl) <==>
              || HeldIn(Member(odrl, Constraint), c)
              || exists p :: HeldIn(Member(odrl, Permission), p) && HeldIn(Member(p, Constraint), c)
  {
    hide AsSlice, Member, PermissionConstraints, HeldIn;
    PermissionConstraintsMeaning(AsSlice(Member(odrl, Permission)));
    SliceHolds(Member(odrl, Constraint), c);
    forall p ensures p in AsSlice(Member(odrl, Permission)) <==> HeldIn(Member(odrl, Permission), p) {
      SliceHolds(Member(odrl, Permission), p);
    }
    forall p ensures c in AsSlice(Member(p, Constraint)) <==> HeldIn(Member(p, Constraint), c) {
      SliceHolds(Member(p, Constraint), c);
    }
  }

  /** The constraint has an accepted operator and a right operand that can be read. */
  ghost predicate WellFormed<T(!new)>(c: Json, operators: seq<string>, read: Json -> Option<seq<T>>) {
    Compares(c, operators) && exists v :: Bounds(c, v) && read(v).Some?
  }

  ghost predicate States<T(!new)>(c: Json, operands: seq<string>, read: Json -> Option<seq<T>>, x: T) {
    LeftNames(c, operands) && exists v :: Bounds(c, v) && read(v).Some? && x in read(v).value
  }

  lemma ClauseMeaning<T(!new)>(c: Json, operands: seq<string>, operators: seq<string>, read: Json -> Option<seq<T>>)
    requires "" !in operands
    ensures Clause(c, operands, operators, read).Some? <==> (LeftNames(c, operands) ==> WellFormed(c, operators, read))
    ensures Clause(c, operands, operators, read).Some? ==>
              forall x :: x in Clause(c, operands, operators, read).value <==> States(c, operands, read, x)
  {
    hide LeftOf, OperatorOk, RightOf, LeftNames, Compares, Bounds;
    LeftNamesExactly(c, operands);
    ComparesExactly(c, operators);
    forall v ensures RightOf(c) == Some(v) <==> Bounds(c, v) {
      BoundsExactly(c, v);
    }
  }

  /** Collecting succeeds exactly when every constraint on the wanted operand is well-formed, and gathers
      exactly what those constraints state. */
  lemma {:induction false} CollectedMeaning<T(!new)>(constraints: seq<Json>, operands: seq<string>,
                                                     operators: seq<string>, read: Json -> Option<seq<T>>)
    requires "" !in operands
    ensures Collected(constraints, operands, operators, read).Some?
       <==> forall c :: c in constraints && LeftNames(c, operands) ==> WellFormed(c, operators, read)
    ensures Collected(constraints, operands, operators, read).Some? ==>
              forall x :: x in Collected(constraints, operands, operators, read).value
                     <==> exists c :: c in constraints && States(c, operands, read, x)
    decreases |constraints|
  {
    hide Clause, LeftNames, WellFormed, States;
    if constraints != [] {
      var init, last := constraints[..|constraints| - 1], constraints[|constraints| - 1];
      assert constraints == init + [last];
      assert forall c :: c in constraints <==> c in init || c == last;
      CollectedMeaning(init, operands, operators, read);
      ClauseMeaning(last, operands, operators, read);
    }
  }

  // ---- columns ----

  const COLUMN_NAMES := ["column", "columns", "allowed-columns", "allowedColumns", "lakecat:allowed-columns"]
  const COLUMN_OPERATORS := ["eq", "isAnyOf", "isAllOf"]

  /** The constraint's right operand lists these strings. */
  ghost predicate ListsColumns(c: Json, strings: seq<string>) {
    exists v :: Bounds(c, v) && Lists(v, strings)
  }

  lemma ColumnConstraint(c: Json)
    ensures WellFormed(c, COLUMN_OPERATORS, StringList) <==>
              Compares(c, COLUMN_OPERATORS) && exists strings :: ListsColumns(c, strings)
    ensures forall x :: States(c, COLUMN_OPERANDS, StringList, x) <==>
              LeftNames(c, COLUMN_NAMES) && exists strings :: ListsColumns(c, strings) && x in strings
  {
    hide StringList, Lists, Bounds, LeftNames, Compares;
    forall v {
      StringsOf(v);
    }
    if WellFormed(c, COLUMN_OPERATORS, StringList) {
      var v :| Bounds(c, v) && StringList(v).Some?;
      var strings :| Lists(v, strings);
      assert ListsColumns(c, strings);
    }
    forall x | States(c, COLUMN_OPERANDS, StringList, x)
      ensures exists strings :: ListsColumns(c, strings) && x in strings
    {
      var v :| Bounds(c, v) && StringList(v).Some? && x in StringList(v).value;
      var strings :| Lists(v, strings) && x in strings;
      assert ListsColumns(c, strings);
    }
  }

  lemma StringsOf(v: Json)
    ensures StringList(v).Some? <==> exists strings :: Lists(v, strings)
    ensures forall x :: (StringList(v).Some? && x in StringList(v).value)
                   <==> exists strings :: Lists(v, strings) && x in strings
  {
    hide StringList, Lists, FirstOccurrences;
    forall list {
      StringListExactly(v, list);
    }
    forall strings: seq<string> ensures forall x :: x in FirstOccurrences(strings) <==> x in strings {
      SameColumns(strings);
    }
    forall strings | Lists(v, strings) ensures StringList(v) == Some(FirstOccurrences(strings)) {
      StringListExactly(v, FirstOccurrences(strings));
    }
  }

  /** Without a direct key, the declared columns are the union of what the column constraints list. */
  lemma ColumnsAreUnited(odrl: Json)
    requires forall v :: !FirstAt(odrl, COLUMN_SPOTS, v)
    ensures var declared := DeclaredColumns(odrl);
      && (declared.Some? <==>
            forall c :: c in Constraints(odrl) && LeftNames(c, COLUMN_NAMES) ==>
              Compares(c, COLUMN_OPERATORS) && exists strings :: ListsColumns(c, strings))
      && (declared.Some? ==>
            && (declared.value.Some? <==> exists c :: c in Constraints(odrl) && LeftNames(c, COLUMN_NAMES))
            && (declared.value.Some? ==>
                  && DuplicateFree(declared.value.value)
                  && forall x :: x in declared.value.value <==>
                       exists c, strings ::
                         && c in Constraints(odrl) && LeftNames(c, COLUMN_NAMES)
                         && ListsColumns(c, strings) && x in strings))
  {
    hide Constraints, Collected, DirectColumns, FirstOccurrences, LeftNames, Compares, WellFormed, States,
      ListsColumns, StringList;
    NoDirectColumns(odrl);
    CollectedMeaning(Constraints(odrl), COLUMN_OPERANDS, COLUMN_OPERATORS, StringList);
    forall c {
      ColumnConstraint(c);
    }
    var columns := Collected(Constraints(odrl), COLUMN_OPERANDS, COLUMN_OPERATORS, StringList);
    if columns.Some? {
      SameColumns(columns.value);
      forall c | c in Constraints(odrl) && LeftNames(c, COLUMN_NAMES) ensures columns.value != [] {
        var strings :| ListsColumns(c, strings);
        SomethingListed(c, strings);
        assert States(c, COLUMN_OPERANDS, StringList, strings[0]) by {
          assert strings[0] in strings && LeftNames(c, COLUMN_NAMES);
        }
        assert strings[0] in columns.value;
      }
      if columns.value != [] {
        assert columns.value[0] in columns.value;
      }
    }
  }

  lemma SomethingListed(c: Json, strings: seq<string>)
    requires ListsColumns(c, strings)
    ensures strings != [] && strings[0] in strings
  {
  }

  lemma NoDirectColumns(odrl: Json)
    requires forall v :: !FirstAt(odrl, COLUMN_SPOTS, v)
    ensures DirectColumns(odrl).None?
  {
    hide DirectColumns, FirstAt;
    if DirectColumns(odrl).Some? {
      DirectColumnsExactly(odrl, DirectColumns(odrl).value);
    }
  }

  /** The first direct key pre-empts later ones and all constraints: it alone decides, and the declared columns are the
      strings it lists, in its order and without repetition. */
  lemma DirectColumnsPreempt(odrl: Json, v: Json, columns: seq<string>)
    requires FirstAt(odrl, COLUMN_SPOTS, v)
    ensures DeclaredColumns(odrl) == Some(Some(columns))
       <==> exists strings :: Lists(v, strings) && columns == FirstOccurrences(strings)
    ensures DeclaredColumns(odrl).Some? <==> exists strings :: Lists(v, strings)
  {
    hide DirectColumns, StringList, Lists, FirstOccurrences, FirstAt;
    DirectColumnsExactly(odrl, v);
    StringListExactly(v, columns);
    StringsOf(v);
  }

  // ---- row predicates ----

  const PREDICATE_NAMES := ["row-predicate", "rowPredicate", "lakecat:row-predicate"]

  /** Without a direct key, the declared predicates are the objects that predicate constraints equate. */
  lemma PredicatesAreCollected(odrl: Json)
    requires forall v :: !FirstAt(odrl, PREDICATE_SPOTS, v)
    ensures var declared := DeclaredPredicates(odrl);
      && (declared.Some? <==>
            forall c :: c in Constraints(odrl) && LeftNames(c, PREDICATE_NAMES) ==>
              Compares(c, ["eq"]) && exists p :: Bounds(c, p) && p.Obj?)
      && (declared.Some? ==>
            forall p :: p in declared.value <==>
              exists c :: c in Constraints(odrl) && LeftNames(c, PREDICATE_NAMES) && Bounds(c, p) && p.Obj?)
  {
    hide Constraints, DirectPredicate, LeftNames, Compares, Bounds, FirstAt, Collected;
    if DirectPredicate(odrl).Some? {
      DirectPredicateExactly(odrl, DirectPredicate(odrl).value);
    }
    CollectedMeaning(Constraints(odrl), PREDICATE_OPERANDS, ["eq"], PredicateValue);
    forall c, p ensures States(c, PREDICATE_OPERANDS, PredicateValue, p) <==>
                          LeftNames(c, PREDICATE_NAMES) && Bounds(c, p) && p.Obj?
    {
    }
  }

  /** Here, too, the first direct key alone decides. */
  lemma DirectPredicatePreempts(odrl: Json, v: Json)
    requires FirstAt(odrl, PREDICATE_SPOTS, v)
    ensures DeclaredPredicates(odrl) == if v.Obj? then Some([v]) else None
  {
    hide DirectPredicate, Collected, FirstAt;
    DirectPredicateExactly(odrl, v);
  }

  // ---- purposes and lifetimes ----

  const PURPOSE_NAMES := ["purpose", "lakecat:purpose"]

  /** Purposes have no such precedence: a direct purpose stands beside those of the constraints, and one that
      cannot be read spoils the document as an ill-formed constraint does. */
  lemma PurposesAreCollected(odrl: Json)
    ensures var declared, direct := DeclaredPurposes(odrl), Member(odrl, Purpose);
      && (declared.Some? <==>
            && (direct.Some? ==> exists p :: Says(direct.value, p))
            && forall c :: c in Constraints(odrl) && LeftNames(c, PURPOSE_NAMES) ==>
                 Compares(c, ["eq"]) && exists v, p :: Bounds(c, v) && Says(v, p))
      && (declared.Some? ==>
            forall p :: p in declared.value <==>
              || (direct.Some? && Says(direct.value, p))
              || exists c, v ::
                   c in Constraints(odrl) && LeftNames(c, PURPOSE_NAMES) && Bounds(c, v) && Says(v, p))
  {
    hide Constraints, Collected, LeftNames, Compares, Bounds, NonblankJsonldString, Says, States, WellFormed, Member;
    forall v, p ensures PurposeValue(v) == Some([p]) <==> Says(v, p) {
      SaysExactly(v, p);
    }
    CollectedMeaning(Constraints(odrl), PURPOSE_OPERANDS, ["eq"], PurposeValue);
    forall c {
      PurposeConstraint(c);
    }
  }

  lemma PurposeConstraint(c: Json)
    ensures WellFormed(c, ["eq"], PurposeValue) <==> Compares(c, ["eq"]) && exists v, p :: Bounds(c, v) && Says(v, p)
    ensures forall p :: States(c, PURPOSE_OPERANDS, PurposeValue, p) <==>
              LeftNames(c, PURPOSE_NAMES) && exists v :: Bounds(c, v) && Says(v, p)
  {
    hide LeftNames, Compares, Bounds, NonblankJsonldString, Says;
    forall v, p {
      SaysExactly(v, p);
    }
  }

  const TTL_NAMES :=
    ["max-credential-ttl-seconds", "maxCredentialTtlSeconds", "credential-ttl", "credentialTtl",
     "lakecat:max-credential-ttl-seconds", "lakecat:credential-ttl"]
  const TTL_OPERATORS := ["eq", "lteq", "lt"]

  lemma {:induction false} PresentTtlsMeaning(values: seq<Option<Json>>)
    ensures PresentTtls(values).Some? <==> forall v :: Some(v) in values ==> JsonldU64(v).Some?
    ensures PresentTtls(values).Some? ==>
              forall n :: n in PresentTtls(values).value <==> exists v :: Some(v) in values && JsonldU64(v) == Some(n)
  {
    hide JsonldU64;
    if values != [] {
      var init, last := values[..|values| - 1], values[|values| - 1];
      assert values == init + [last];
      PresentTtlsMeaning(init);
      assert last.Some? ==> last in values;
    }
  }

  lemma TtlConstraint(c: Json)
    ensures WellFormed(c, TTL_OPERATORS, TtlValue) <==>
              Compares(c, TTL_OPERATORS) && exists v, n :: Bounds(c, v) && Numbers(v, n)
    ensures forall n :: States(c, TTL_OPERANDS, TtlValue, n) <==>
              LeftNames(c, TTL_NAMES) && exists v :: Bounds(c, v) && Numbers(v, n)
  {
    hide LeftNames, Compares, Bounds, JsonldU64, Numbers;
    forall v, n {
      NumbersExactly(v, n);
    }
  }

  /** The value stands at one of the spots for a direct lifetime. */
  ghost predicate DirectTtl(odrl: Json, v: Json) {
    exists i :: 0 <= i < |TTL_SPOTS| && At(odrl, TTL_SPOTS[i]) == Some(v)
  }

  /** Nor have lifetimes: all direct ones and those of all constraints are declared. */
  lemma TtlsAreCollected(odrl: Json)
    ensures var declared := DeclaredTtls(odrl);
      && (declared.Some? <==>
            && (forall v :: DirectTtl(odrl, v) ==> exists n :: Numbers(v, n))
            && forall c :: c in Constraints(odrl) && LeftNames(c, TTL_NAMES) ==>
                 Compares(c, TTL_OPERATORS) && exists v, n :: Bounds(c, v) && Numbers(v, n))
      && (declared.Some? ==>
            forall n :: n in declared.value <==>
              || (exists v :: DirectTtl(odrl, v) && Numbers(v, n))
              || exists c, v :: c in Constraints(odrl) && LeftNames(c, TTL_NAMES) && Bounds(c, v) && Numbers(v, n))
  {
    hide Constraints, Collected, LeftNames, Compares, Bounds, JsonldU64, DirectTtls, PresentTtls, Numbers, States,
      WellFormed, At;
    var direct := DirectTtls(odrl);
    DirectTtlsExactly(odrl);
    forall v ensures Some(v) in direct <==> DirectTtl(odrl, v) {
      if Some(v) in direct {
        var i :| 0 <= i < |direct| && direct[i] == Some(v);
        assert At(odrl, TTL_SPOTS[i]) == Some(v);
      }
      if DirectTtl(odrl, v) {
        var i :| 0 <= i < |TTL_SPOTS| && At(odrl, TTL_SPOTS[i]) == Some(v);
        assert direct[i] == Some(v);
      }
    }
    hide DirectTtl, TTL_SPOTS;
    PresentTtlsMeaning(direct);
    CollectedMeaning(Constraints(odrl), TTL_OPERANDS, TTL_OPERATORS, TtlValue);
    forall v, n {
      NumbersExactly(v, n);
    }
    forall c {
      TtlConstraint(c);
    }
  }
}
