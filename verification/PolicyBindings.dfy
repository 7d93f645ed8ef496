/** The store's policy bindings, and the list of them that a table is governed by: the enforced bindings
    that apply to it, sorted by policy id. */
module PolicyBindings {
  import opened Json
  import opened Authorization

  /** Warehouse and policy id. */
  type BindingKey = (string, string)
  type Bindings = map<BindingKey, Binding>

  function KeyOf(b: Binding): BindingKey {
    (b.warehouse, b.policyId)
  }

  predicate Governs(b: Binding, t: Ident) {
    b.enforced && AppliesTo(b, t)
  }

  function Governing(stored: Bindings, t: Ident): Bindings {
    map k | k in stored && Governs(stored[k], t) :: stored[k]
  }

  // ---- the order of policy ids ----

  /** Lexicographic order. */
  predicate AtMost(a: string, b: string) {
    || a == ""
    || (b != "" && (a[0] < b[0] || (a[0] == b[0] && AtMost(a[1..], b[1..]))))
  }

  lemma {:induction false} AtMostTotal(a: string, b: string)
    ensures AtMost(a, b) || AtMost(b, a)
    ensures AtMost(a, a)
  {
    if a != "" {
      AtMostTotal(a[1..], if b == "" then "" else b[1..]);
    }
  }

  lemma {:induction false} AtMostTransitive(a: string, b: string, c: string)
    requires AtMost(a, b) && AtMost(b, c)
    ensures AtMost(a, c)
  {
    if a != "" && a[0] == b[0] == c[0] {
      AtMostTransitive(a[1..], b[1..], c[1..]);
    }
  }

  /** The strings first differ at `i`, where the first one has the smaller character. */
  predicate SmallerAt(a: string, b: string, i: nat) {
    i < |a| && i < |b| && a[i] < b[i] && forall j :: 0 <= j < i ==> a[j] == b[j]
  }

  /** A string is at most another if it is a prefix of it or has the smaller character where they first differ. */
  lemma {:induction false} AtMostExactly(a: string, b: string)
    ensures AtMost(a, b) <==> a <= b || exists i :: SmallerAt(a, b, i)
    decreases |a|
  {
    if a != "" && b != "" {
      if a[0] == b[0] {
        AtMostExactly(a[1..], b[1..]);
        forall i: nat ensures SmallerAt(a, b, i + 1) <==> SmallerAt(a[1..], b[1..], i) { SmallerNext(a, b, i); }
        assert !SmallerAt(a, b, 0);
        assert forall i: nat :: SmallerAt(a, b, i) ==> SmallerAt(a[1..], b[1..], i - 1);
        assert a == [a[0]] + a[1..] && b == [b[0]] + b[1..];
        hide SmallerAt;
        assert a <= b <==> a[1..] <= b[1..];
      } else {
        assert a[0] < b[0] ==> SmallerAt(a, b, 0);
      }
    }
  }

  lemma SmallerNext(a: string, b: string, i: nat)
    requires a != "" && b != "" && a[0] == b[0]
    ensures SmallerAt(a, b, i + 1) <==> SmallerAt(a[1..], b[1..], i)
  {
    var x, y := a[1..], b[1..];
    if SmallerAt(a, b, i + 1) {
      assert forall j :: 0 <= j < i ==> x[j] == a[j + 1] && y[j] == b[j + 1];
    }
    if SmallerAt(x, y, i) {
      forall j | 0 < j < i + 1 ensures a[j] == b[j] {
        assert a[j] == x[j - 1] && b[j] == y[j - 1];
      }
    }
  }

  ghost predicate Least(keys: set<BindingKey>, k: BindingKey) {
    k in keys && forall l :: l in keys ==> AtMost(k.1, l.1)
  }

  lemma {:induction false} LeastExists(keys: set<BindingKey>)
    requires keys != {}
    ensures exists k :: Least(keys, k)
    decreases |keys|
  {
    var k :| k in keys;
    AtMostTotal(k.1, k.1);
    if keys - {k} == {} {
      assert keys <= {k};
      assert Least(keys, k);
    } else {
      LeastExists(keys - {k});
      var l :| Least(keys - {k}, l);
      AtMostTotal(k.1, l.1);
      if AtMost(k.1, l.1) {
        forall x | x in keys ensures AtMost(k.1, x.1) {
          if x != k {
            AtMostTransitive(k.1, l.1, x.1);
          }
        }
        assert Least(keys, k);
      } else {
        assert Least(keys, l);
      }
    }
  }

  // ---- the list ----

  ghost function Sorted(stored: Bindings, keys: set<BindingKey>): seq<Binding>
    requires keys <= stored.Keys
    decreases |keys|
  {
    if keys == {} then [] else
    LeastExists(keys);
    var k :| Least(keys, k);
    [stored[k]] + Sorted(stored, keys - {k})
  }

  /** The bindings that govern the table, as the store lists them. */
  ghost function BindingsFor(stored: Bindings, t: Ident): seq<Binding> {
    var governing := Governing(stored, t);
    Sorted(governing, governing.Keys)
  }

  lemma {:induction false} SortedMembers(stored: Bindings, keys: set<BindingKey>)
    requires keys <= stored.Keys
    ensures |Sorted(stored, keys)| == |keys|
    ensures forall b :: b in Sorted(stored, keys) <==> exists k :: k in keys && stored[k] == b
    decreases |keys|
  {
    if keys != {} {
      LeastExists(keys);
      var k :| Least(keys, k) && Sorted(stored, keys) == [stored[k]] + Sorted(stored, keys - {k});
      SortedMembers(stored, keys - {k});
    }
  }

  predicate Ordered(bindings: seq<Binding>) {
    forall i, j :: 0 <= i < j < |bindings| ==> AtMost(bindings[i].policyId, bindings[j].policyId)
  }

  lemma {:induction false} SortedOrdered(stored: Bindings, keys: set<BindingKey>)
    requires keys <= stored.Keys && forall k :: k in stored ==> KeyOf(stored[k]) == k
    ensures Ordered(Sorted(stored, keys))
    decreases |keys|
  {
    if keys != {} {
      LeastExists(keys);
      var k :| Least(keys, k) && Sorted(stored, keys) == [stored[k]] + Sorted(stored, keys - {k});
      SortedOrdered(stored, keys - {k});
      SortedMembers(stored, keys - {k});
      var rest := Sorted(stored, keys - {k});
      hide Sorted, AtMost;
      forall b | b in rest ensures AtMost(stored[k].policyId, b.policyId) {
        var l :| l in keys - {k} && stored[l] == b;
        assert AtMost(k.1, l.1);
      }
    }
  }

  /** The binding is for the whole warehouse, for the table's namespace, or for the table itself. */
  predicate InScope(b: Binding, t: Ident) {
    || (b.namespace == None && b.table == None)
    || (b.namespace == Some(t.namespace) && (b.table == None || b.table == Some(t.name)))
  }

  lemma GovernsExactly(b: Binding, t: Ident)
    ensures Governs(b, t) <==> b.enforced && b.warehouse == t.warehouse && InScope(b, t)
  {
  }

  /** A table is governed by exactly the enforced bindings that apply to it, each listed once, in the
      order of their ids; and the list depends on nothing else. */
  lemma BindingsForTable(stored: Bindings, t: Ident)
    requires forall k :: k in stored ==> KeyOf(stored[k]) == k
    ensures Ordered(BindingsFor(stored, t)) && |BindingsFor(stored, t)| == |Governing(stored, t)|
    ensures forall b :: b in BindingsFor(stored, t) <==>
              && (b.warehouse, b.policyId) in stored && stored[(b.warehouse, b.policyId)] == b
              && b.enforced && b.warehouse == t.warehouse && InScope(b, t)
    ensures forall other :: Governing(other, t) == Governing(stored, t) ==>
              BindingsFor(other, t) == BindingsFor(stored, t)
  {
    var governing := Governing(stored, t);
    SortedMembers(governing, governing.Keys);
    SortedOrdered(governing, governing.Keys);
    hide Sorted, Governing, AtMost, InScope;
    forall b ensures b in BindingsFor(stored, t) <==>
              && (b.warehouse, b.policyId) in stored && stored[(b.warehouse, b.policyId)] == b
              && b.enforced && b.warehouse == t.warehouse && InScope(b, t)
    {
      GoverningValues(stored, t, b);
    }
  }

  lemma GoverningValues(stored: Bindings, t: Ident, b: Binding)
    requires forall k :: k in stored ==> KeyOf(stored[k]) == k
    ensures (exists k :: k in Governing(stored, t).Keys && Governing(stored, t)[k] == b) <==>
              && (b.warehouse, b.policyId) in stored && stored[(b.warehouse, b.policyId)] == b
              && b.enforced && b.warehouse == t.warehouse && InScope(b, t)
  {
    GovernsExactly(b, t);
    hide Governs, InScope;
    if KeyOf(b) in stored && stored[KeyOf(b)] == b && Governs(b, t) {
      assert Governing(stored, t)[KeyOf(b)] == b;
    }
  }

  // ---- rewriting ----

  /** Storing the binding may change what governs the table. */
  predicate Affects(stored: Bindings, b: Binding, t: Ident) {
    Governs(b, t) || (KeyOf(b) in stored && Governs(stored[KeyOf(b)], t))
  }

  lemma UnaffectedBindings(stored: Bindings, b: Binding, t: Ident)
    requires !Affects(stored, b, t)
    ensures Governing(stored[KeyOf(b) := b], t) == Governing(stored, t)
  {
  }
}
