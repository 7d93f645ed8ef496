/** What the readers of a policy document accept, said of the JSON alone. */
module PolicyReaders {
  import opened Json
  import opened Text
  import opened Columns
  import opened Policy

  // ---- strings, lists of strings, numbers ----

  /** The value is this string, plainly or as an `@value`. */
  predicate Spells(v: Json, s: string) {
    v == Str(s) || (v.Obj? && AtValue in v.members && v.members[AtValue] == Str(s))
  }

  /** The same, and the string is not blank. */
  predicate Says(v: Json, s: string) {
    Spells(v, s) && exists i :: 0 <= i < |s| && !IsWhitespace(s[i])
  }

  lemma SaysExactly(v: Json, s: string)
    ensures NonblankJsonldString(v) == Some(s) <==> Says(v, s)
  {
    assert Blank(s) <==> forall i :: 0 <= i < |s| ==> IsWhitespace(s[i]);
    hide Blank, IsWhitespace;
  }

  lemma {:induction false} NonblankExactly(items: seq<Json>, strings: seq<string>)
    ensures NonblankStrings(items) == Some(strings) <==>
              |strings| == |items| && forall i :: 0 <= i < |items| ==> Says(items[i], strings[i])
    decreases |items|
  {
    hide Says, NonblankJsonldString;
    if items != [] {
      var n := |items| - 1;
      if strings != [] {
        var init, last := strings[..|strings| - 1], strings[|strings| - 1];
        NonblankExactly(items[..n], init);
        SaysExactly(items[n], last);
        assert strings == init + [last];
      }
      if NonblankStrings(items) == Some(strings) {
        assert strings != [];
      }
    }
  }

  /** The items of an array, or of an `@list`. */
  predicate ListsItems(v: Json, items: seq<Json>) {
    v == Arr(items) || (v.Obj? && AtList in v.members && v.members[AtList] == Arr(items))
  }

  /** The value lists these strings, one for each item, and at least one; a value that is no list is the one string. */
  ghost predicate Lists(v: Json, strings: seq<string>) {
    && strings != []
    && if v.Arr? || (v.Obj? && AtList in v.members) then
         exists items :: ListsItems(v, items) && |items| == |strings|
                         && forall i :: 0 <= i < |items| ==> Says(items[i], strings[i])
       else |strings| == 1 && Says(v, strings[0])
  }

  lemma RawExactly(v: Json, strings: seq<string>)
    ensures RawStrings(v) == Some(strings) && strings != [] <==> Lists(v, strings)
  {
    hide NonblankStrings, NonblankJsonldString, Says;
    if v.Arr? {
      NonblankExactly(v.items, strings);
      assert ListsItems(v, v.items);
    } else if v.Obj? && AtList in v.members {
      if v.members[AtList].Arr? {
        NonblankExactly(v.members[AtList].items, strings);
        assert ListsItems(v, v.members[AtList].items);
      }
    } else if |strings| == 1 {
      SaysExactly(v, strings[0]);
      assert strings == [strings[0]];
    }
  }

  /** A list of columns is read exactly when its items are non-blank strings and there is one at least; repetitions
      are then left out. */
  lemma StringListExactly(v: Json, list: seq<string>)
    ensures StringList(v) == Some(list) <==> exists strings :: Lists(v, strings) && list == FirstOccurrences(strings)
  {
    hide RawStrings, Lists, FirstOccurrences;
    forall strings {
      RawExactly(v, strings);
    }
    var raw := RawStrings(v);
    if raw.Some? {
      RawExactly(v, raw.value);
    }
  }

  /** The string is the number in decimals, possibly after zeros and a plus sign. */
  ghost predicate Counts(s: string, n: nat) {
    exists z: nat :: s == Zeros(z) + Decimal(n) || s == "+" + (Zeros(z) + Decimal(n))
  }

  /** The value is this 64-bit number, plainly or as an `@value`, which may also spell it. */
  ghost predicate Numbers(v: Json, n: nat) {
    && n < U64_LIMIT
    && (|| v == Num(n)
        || (v.Obj? && AtValue in v.members
            && (v.members[AtValue] == Num(n) || (v.members[AtValue].Str? && Counts(v.members[AtValue].s, n)))))
  }

  lemma ParsesExactly(s: string, n: nat)
    ensures ParseU64(s) == Some(n) <==> n < U64_LIMIT && Counts(s, n)
  {
    hide Digits, Zeros, Decimal;
    DigitsExactly(s, n);
    if s != "" && s[0] == '+' {
      DigitsExactly(s[1..], n);
      assert s == "+" + s[1..];
      forall z: nat
        ensures s != Zeros(z) + Decimal(n)
        ensures s == "+" + (Zeros(z) + Decimal(n)) <==> s[1..] == Zeros(z) + Decimal(n)
      {
        NoSign(z, n);
        assert ("+" + (Zeros(z) + Decimal(n)))[1..] == Zeros(z) + Decimal(n);
      }
    } else {
      forall z: nat ensures s != "+" + (Zeros(z) + Decimal(n)) {
        assert ("+" + (Zeros(z) + Decimal(n)))[0] == '+';
      }
    }
  }

  lemma NoSign(z: nat, n: nat)
    ensures Zeros(z) + Decimal(n) != "" && (Zeros(z) + Decimal(n))[0] != '+'
  {
    DecimalStarts(n);
    hide Decimal;
  }

  lemma {:induction false} DecimalStarts(n: nat)
    ensures Decimal(n) != "" && '0' <= Decimal(n)[0] <= '9'
  {
    if n >= 10 {
      DecimalStarts(n / 10);
    }
  }

  lemma NumbersExactly(v: Json, n: nat)
    ensures JsonldU64(v) == Some(n) <==> Numbers(v, n)
  {
    hide ParseU64, Counts;
    if v.Obj? && AtValue in v.members && v.members[AtValue].Str? {
      ParsesExactly(v.members[AtValue].s, n);
    }
  }

  // ---- the parts of a constraint ----

  /** The value of the first of these members that is present. */
  ghost predicate FirstMember(c: Json, keys: seq<Key>, v: Json) {
    exists i :: 0 <= i < |keys| && Member(c, keys[i]) == Some(v)
                && forall j :: 0 <= j < i ==> Member(c, keys[j]) == None
  }

  /** The value is this term, plainly or as an `@id`. */
  predicate Terms(v: Json, t: string) {
    v == Str(t) || (v.Obj? && AtId in v.members && v.members[AtId] == Str(t))
  }

  lemma TermExactly(v: Json, t: string)
    ensures JsonldTerm(v) == Some(t) <==> Terms(v, t)
  {
  }

  lemma FirstOfTwo(c: Json, k: Key, l: Key, v: Json)
    ensures FirstMember(c, [k, l], v) <==> Or(Member(c, k), Member(c, l)) == Some(v)
  {
    hide Member;
    var keys := [k, l];
    assert keys[0] == k && keys[1] == l;
  }

  lemma FirstOfThree(c: Json, k: Key, l: Key, m: Key, v: Json)
    ensures FirstMember(c, [k, l, m], v) <==> Or(Or(Member(c, k), Member(c, l)), Member(c, m)) == Some(v)
  {
    hide Member;
    var keys := [k, l, m];
    assert keys[0] == k && keys[1] == l && keys[2] == m;
  }

  /** The left operand names one of these. */
  ghost predicate LeftNames(c: Json, operands: seq<string>) {
    exists v, t :: FirstMember(c, [LeftOperand, DLeftOperand, OdrlLeftOperand], v) && Terms(v, t) && t in operands
  }

  lemma LeftNamesExactly(c: Json, operands: seq<string>)
    requires "" !in operands
    ensures LeftOf(c) in operands <==> LeftNames(c, operands)
  {
    hide FirstMember, Terms, JsonldTerm, Member;
    forall v {
      FirstOfThree(c, LeftOperand, DLeftOperand, OdrlLeftOperand, v);
    }
    forall v, t {
      TermExactly(v, t);
    }
    var operand := Or(Or(Member(c, LeftOperand), Member(c, DLeftOperand)), Member(c, OdrlLeftOperand));
    hide Or;
    if operand.Some? && JsonldTerm(operand.value).Some? {
      assert Terms(operand.value, LeftOf(c));
      assert FirstMember(c, [LeftOperand, DLeftOperand, OdrlLeftOperand], operand.value);
    }
  }

  /** The right operand. */
  ghost predicate Bounds(c: Json, v: Json) {
    FirstMember(c, [RightOperand, DRightOperand, OdrlRightOperand], v)
  }

  lemma BoundsExactly(c: Json, v: Json)
    ensures RightOf(c) == Some(v) <==> Bounds(c, v)
  {
    hide FirstMember;
    FirstOfThree(c, RightOperand, DRightOperand, OdrlRightOperand, v);
  }

  /** The term is the operator, or names it in the ODRL vocabulary by its prefix or its IRI. */
  predicate Abbreviates(t: string, operator: string) {
    || t == "odrl:" + operator
    || t == "http://www.w3.org/ns/odrl/2/" + operator
    || (t == operator && !("odrl:" <= t) && !("http://www.w3.org/ns/odrl/2/" <= t))
  }

  ghost predicate Compares(c: Json, operators: seq<string>) {
    exists v, t, o ::
      FirstMember(c, [Operator, OdrlOperator], v) && Terms(v, t) && o in operators && Abbreviates(t, o)
  }

  lemma AbbreviationExactly(t: string, o: string)
    ensures var normalized := if ODRL_PREFIX <= t then t[|ODRL_PREFIX|..]
                              else if ODRL_IRI <= t then t[|ODRL_IRI|..] else t;
      normalized == o <==> Abbreviates(t, o)
  {
    assert ODRL_PREFIX[0] == 'o' && ODRL_IRI[0] == 'h';
    assert ODRL_PREFIX <= t ==> t == ODRL_PREFIX + t[|ODRL_PREFIX|..];
    assert ODRL_IRI <= t ==> t == ODRL_IRI + t[|ODRL_IRI|..];
    assert t == ODRL_PREFIX + o ==> t[|ODRL_PREFIX|..] == o;
    assert t == ODRL_IRI + o ==> t[|ODRL_IRI|..] == o && t[0] == 'h';
  }

  lemma ComparesExactly(c: Json, operators: seq<string>)
    ensures OperatorOk(c, operators) <==> Compares(c, operators)
  {
    hide FirstMember, Terms, JsonldTerm, Member, Abbreviates;
    forall v {
      FirstOfTwo(c, Operator, OdrlOperator, v);
    }
    forall v, t {
      TermExactly(v, t);
    }
    forall t, o {
      AbbreviationExactly(t, o);
    }
    var operator := Or(Member(c, Operator), Member(c, OdrlOperator));
    hide Or;
    if OperatorOk(c, operators) {
      var v, t := operator.value, JsonldTerm(operator.value).value;
      var o := if ODRL_PREFIX <= t then t[|ODRL_PREFIX|..] else if ODRL_IRI <= t then t[|ODRL_IRI|..] else t;
      assert FirstMember(c, [Operator, OdrlOperator], v) && Terms(v, t) && Abbreviates(t, o);
    }
  }

  // ---- direct values ----

  /** A member of the document, or of one of its members. */
  datatype Spot = Own(k: Key) | Within(outer: Key, inner: Key)

  function At(v: Json, spot: Spot): Option<Json> {
    match spot
    case Own(k) => Member(v, k)
    case Within(outer, inner) => if Member(v, outer).Some? then Member(Member(v, outer).value, inner) else None
  }

  /** The value at the first of these spots where there is one. */
  ghost predicate FirstAt(v: Json, spots: seq<Spot>, x: Json) {
    exists i :: 0 <= i < |spots| && At(v, spots[i]) == Some(x) && forall j :: 0 <= j < i ==> At(v, spots[j]) == None
  }

  lemma FirstOfSpots(v: Json, spots: seq<Spot>, values: seq<Option<Json>>, x: Json)
    requires |values| == |spots| && forall i :: 0 <= i < |spots| ==> values[i] == At(v, spots[i])
    ensures FirstSome(values) == Some(x) <==> FirstAt(v, spots, x)
  {
    hide At, FirstSome;
    FirstSomeExactly(values, x);
    if FirstAt(v, spots, x) {
      var i :| 0 <= i < |spots| && At(v, spots[i]) == Some(x) && forall j :: 0 <= j < i ==> At(v, spots[j]) == None;
      assert values[i] == Some(x) && forall j :: 0 <= j < i ==> values[j] == None;
    }
  }

  function FirstSome(values: seq<Option<Json>>): Option<Json> {
    if values == [] then None else Or(values[0], FirstSome(values[1..]))
  }

  lemma {:induction false} FirstSomeExactly(values: seq<Option<Json>>, x: Json)
    ensures FirstSome(values) == Some(x) <==>
              exists i :: 0 <= i < |values| && values[i] == Some(x) && forall j :: 0 <= j < i ==> values[j] == None
    decreases |values|
  {
    if values != [] {
      var rest := values[1..];
      FirstSomeExactly(rest, x);
      if values[0] == None {
        forall i | 0 <= i < |rest| && rest[i] == Some(x) && forall j :: 0 <= j < i ==> rest[j] == None
          ensures values[i + 1] == Some(x) && forall j :: 0 <= j < i + 1 ==> values[j] == None
        {
          assert forall j :: 0 < j < i + 1 ==> values[j] == rest[j - 1];
        }
        forall i | 0 <= i < |values| && values[i] == Some(x) && forall j :: 0 <= j < i ==> values[j] == None
          ensures i > 0 && rest[i - 1] == Some(x) && forall j :: 0 <= j < i - 1 ==> rest[j] == None
        {
        }
      }
    }
  }

  const COLUMN_SPOTS := [
    Own(DAllowedColumns), Own(AllowedColumns), Own(Columns),
    Within(LakecatReadRestriction, DAllowedColumns), Within(LakecatReadRestriction, AllowedColumns),
    Within(DReadRestriction, DAllowedColumns), Within(ReadRestriction, AllowedColumns)]
  const PREDICATE_SPOTS := [
    Own(DRowPredicate), Own(RowPredicate), Own(LakecatRowPredicate),
    Within(LakecatReadRestriction, DRowPredicate), Within(LakecatReadRestriction, RowPredicate),
    Within(DReadRestriction, DRowPredicate), Within(ReadRestriction, RowPredicate)]
  const TTL_SPOTS := [
    Own(DMaxTtl), Own(MaxTtl), Within(LakecatReadRestriction, DMaxTtl), Within(LakecatReadRestriction, MaxTtl),
    Within(DReadRestriction, DMaxTtl), Within(ReadRestriction, MaxTtl)]

  lemma FirstOfMore(a: Option<Json>, rest: seq<Option<Json>>)
    ensures FirstSome([a] + rest) == Or(a, FirstSome(rest))
  {
    assert ([a] + rest)[1..] == rest;
  }

  lemma FirstOfSeven(a: Option<Json>, b: Option<Json>, c: Option<Json>, d: Option<Json>, e: Option<Json>,
                     f: Option<Json>, g: Option<Json>)
    ensures FirstSome([a, b, c, d, e, f, g]) == Or(a, Or(b, Or(c, Or(d, Or(e, Or(f, g))))))
  {
    FirstOfMore(g, []);
    FirstOfMore(f, [g]);
    FirstOfMore(e, [f, g]);
    FirstOfMore(d, [e, f, g]);
    FirstOfMore(c, [d, e, f, g]);
    FirstOfMore(b, [c, d, e, f, g]);
    FirstOfMore(a, [b, c, d, e, f, g]);
    assert [g] + [] == [g] && [f] + [g] == [f, g] && [e] + [f, g] == [e, f, g];
    assert [d] + [e, f, g] == [d, e, f, g] && [c] + [d, e, f, g] == [c, d, e, f, g];
    assert [b] + [c, d, e, f, g] == [b, c, d, e, f, g] && [a] + [b, c, d, e, f, g] == [a, b, c, d, e, f, g];
    assert Or(g, FirstSome([])) == g;
    hide FirstSome, Or;
  }

  lemma DirectColumnsExactly(odrl: Json, v: Json)
    ensures DirectColumns(odrl) == Some(v) <==> FirstAt(odrl, COLUMN_SPOTS, v)
  {
    hide Member, FirstSome, FirstAt, Or;
    var values := seq(|COLUMN_SPOTS|, i requires 0 <= i < |COLUMN_SPOTS| => At(odrl, COLUMN_SPOTS[i]));
    assert values == [values[0], values[1], values[2], values[3], values[4], values[5], values[6]];
    FirstOfSeven(values[0], values[1], values[2], values[3], values[4], values[5], values[6]);
    FirstOfSpots(odrl, COLUMN_SPOTS, values, v);
  }

  lemma DirectPredicateExactly(odrl: Json, v: Json)
    ensures DirectPredicate(odrl) == Some(v) <==> FirstAt(odrl, PREDICATE_SPOTS, v)
  {
    hide Member, FirstSome, FirstAt, Or;
    var values := seq(|PREDICATE_SPOTS|, i requires 0 <= i < |PREDICATE_SPOTS| => At(odrl, PREDICATE_SPOTS[i]));
    assert values == [values[0], values[1], values[2], values[3], values[4], values[5], values[6]];
    FirstOfSeven(values[0], values[1], values[2], values[3], values[4], values[5], values[6]);
    FirstOfSpots(odrl, PREDICATE_SPOTS, values, v);
  }

  lemma DirectTtlsExactly(odrl: Json)
    ensures |DirectTtls(odrl)| == |TTL_SPOTS|
    ensures forall i :: 0 <= i < |TTL_SPOTS| ==> DirectTtls(odrl)[i] == At(odrl, TTL_SPOTS[i])
  {
    hide Member;
  }
}
