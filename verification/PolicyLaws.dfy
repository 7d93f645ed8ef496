/** What a composed read restriction means, whatever the order of the policies. */
module PolicyLaws {
  import opened Json
  import opened Columns
  import opened Policy

  /** Columns, row predicates, purposes and lifetimes of every document can be read. */
  predicate Readable(docs: seq<Json>) {
    forall d :: d in docs ==>
      DeclaredColumns(d).Some? && DeclaredPredicates(d).Some? && DeclaredPurposes(d).Some? && DeclaredTtls(d).Some?
  }

  /** What is read of a document are all four. */
  lemma ReadParts(d: Json)
    ensures Read(d).Some? <==>
      DeclaredColumns(d).Some? && DeclaredPredicates(d).Some? && DeclaredPurposes(d).Some? && DeclaredTtls(d).Some?
    ensures Read(d).Some? ==>
      && Some(Read(d).value.columns) == DeclaredColumns(d) && Some(Read(d).value.predicates) == DeclaredPredicates(d)
      && Some(Read(d).value.purposes) == DeclaredPurposes(d) && Some(Read(d).value.ttls) == DeclaredTtls(d)
  {
    hide DeclaredColumns, DeclaredPredicates, DeclaredPurposes, DeclaredTtls;
  }

  ghost predicate Declares(docs: seq<Json>, purpose: string) {
    exists d :: d in docs && DeclaredPurposes(d).Some? && purpose in DeclaredPurposes(d).value
  }

  /** No two documents, and no document by itself, declare different purposes. */
  ghost predicate PurposesAgree(docs: seq<Json>) {
    forall p, q :: Declares(docs, p) && Declares(docs, q) ==> p == q
  }

  lemma Snoc(docs: seq<Json>) returns (init: seq<Json>, last: Json)
    requires docs != []
    ensures init == docs[..|docs| - 1] && last == docs[|docs| - 1] && docs == init + [last]
    ensures forall d :: d in docs <==> d in init || d == last
  {
    init, last := docs[..|docs| - 1], docs[|docs| - 1];
    assert docs == init + [last];
  }

  lemma DeclaresSnoc(init: seq<Json>, last: Json, p: string)
    ensures Declares(init + [last], p)
       <==> Declares(init, p) || (DeclaredPurposes(last).Some? && p in DeclaredPurposes(last).value)
  {
    hide DeclaredPurposes;
    assert forall d :: d in init + [last] <==> d in init || d == last;
  }

  /** The fold succeeds exactly when every document can be read and all declared purposes agree; the
      composed purpose is then the one that is declared. */
  lemma {:induction false} CompositionSucceeds(digest: Json -> string, docs: seq<Json>)
    ensures Composed(digest, docs).Some? <==> Readable(docs) && PurposesAgree(docs)
    ensures Composed(digest, docs).Some? ==>
              forall p :: Composed(digest, docs).value.purpose == Some(p) <==> Declares(docs, p)
    decreases |docs|
  {
    hide Read, DeclaredColumns, DeclaredPredicates, DeclaredPurposes, DeclaredTtls;
    if docs != [] {
      var init, last := Snoc(docs);
      ReadParts(last);
      CompositionSucceeds(digest, init);
      forall p {
        DeclaresSnoc(init, last, p);
      }
      hide Declares, Composed;
      UnfoldComposed(digest, docs);
      assert Readable(docs) <==> Readable(init) && Read(last).Some?;
      assert PurposesAgree(docs) ==> PurposesAgree(init);
      if Composed(digest, init).Some? && Read(last).Some? {
        MergedPurpose(Composed(digest, init).value, Read(last).value, digest(last));
      }
    }
  }

  lemma UnfoldComposed(digest: Json -> string, docs: seq<Json>)
    requires docs != []
    ensures var init, last := docs[..|docs| - 1], docs[|docs| - 1];
      Composed(digest, docs)
      == if Composed(digest, init).None? || Read(last).None? then None
         else Merged(Composed(digest, init).value, Read(last).value, digest(last))
  {
  }

  lemma MergedPurpose(r: Restriction, d: Declared, hash: string)
    ensures Merged(r, d, hash).Some?
       <==> forall p, q :: (p in d.purposes || r.purpose == Some(p)) && (q in d.purposes || r.purpose == Some(q))
                           ==> p == q
    ensures Merged(r, d, hash).Some? ==>
              forall p :: Merged(r, d, hash).value.purpose == Some(p) <==> p in d.purposes || r.purpose == Some(p)
  {
    hide Conjunction, MinOf, Tighten, Retained, And;
    if d.purposes != [] {
      assert d.purposes[0] in d.purposes;
    }
  }

  // ---- columns ----

  /** `c` lies in every column list that some document declares. */
  ghost predicate InAllLists(docs: seq<Json>, c: string) {
    forall d :: d in docs && DeclaredColumns(d).Some? && DeclaredColumns(d).value.Some? ==>
      c in DeclaredColumns(d).value.value
  }

  ghost predicate ListsColumns(docs: seq<Json>) {
    exists d :: d in docs && DeclaredColumns(d).Some? && DeclaredColumns(d).value.Some?
  }

  lemma ListsAreDuplicateFree(d: Json)
    requires Read(d).Some? && Read(d).value.columns.Some?
    ensures DuplicateFree(Read(d).value.columns.value)
  {
    hide DirectColumns, Collected, Constraints, DeclaredPredicates, DeclaredPurposes, DeclaredTtls, RawStrings;
    hide FirstOccurrences;
    var direct := DirectColumns(d);
    if direct.Some? {
      SameColumns(RawStrings(direct.value).value);
    } else {
      SameColumns(Collected(Constraints(d), COLUMN_OPERANDS, ["eq", "isAnyOf", "isAllOf"], StringList).value);
    }
  }

  /** The allowed columns are the intersection of the declared lists, without repetition; there is no
      column restriction exactly when no document declares one. */
  lemma {:induction false} ColumnsAreIntersection(digest: Json -> string, docs: seq<Json>)
    requires Composed(digest, docs).Some?
    ensures var allowed := Composed(digest, docs).value.allowedColumns;
      && (allowed.Some? <==> ListsColumns(docs))
      && (allowed.Some? ==> DuplicateFree(allowed.value) && forall c :: c in allowed.value <==> InAllLists(docs, c))
    decreases |docs|
  {
    hide Read, AllSame, Conjunction, MinOf, DeclaredColumns, DeclaredPredicates, DeclaredPurposes, DeclaredTtls;
    if docs != [] {
      var init, last := Snoc(docs);
      UnfoldComposed(digest, docs);
      ReadParts(last);
      hide Composed;
      ColumnsAreIntersection(digest, init);
      var r, d := Composed(digest, init).value, Read(last).value;
      if d.columns.Some? {
        ListsAreDuplicateFree(last);
        if r.allowedColumns.Some? {
          RetainedMembers(r.allowedColumns.value, d.columns.value);
        }
      }
      forall c ensures InAllLists(docs, c) <==> InAllLists(init, c) && (d.columns.Some? ==> c in d.columns.value) {
      }
      assert ListsColumns(docs) <==> ListsColumns(init) || d.columns.Some?;
      if r.allowedColumns.None? {
        assert forall c :: InAllLists(init, c);
      }
    }
  }

  // ---- row predicate ----

  ghost predicate AllHold(ev: Json -> bool, docs: seq<Json>) {
    forall d, p :: d in docs && DeclaredPredicates(d).Some? && p in DeclaredPredicates(d).value ==> ev(p)
  }

  ghost predicate HasPredicate(docs: seq<Json>) {
    exists d :: d in docs && DeclaredPredicates(d).Some? && DeclaredPredicates(d).value != []
  }

  /** An evaluation of Iceberg expressions for which `and` is conjunction. */
  ghost predicate Evaluation(ev: Json -> bool) {
    forall l, r :: ev(Obj(map[Type := Str("and"), Left := l, Right := r])) <==> ev(l) && ev(r)
  }

  lemma AndHolds(ev: Json -> bool, l: Json, r: Json)
    requires Evaluation(ev)
    ensures ev(And(l, r)) <==> ev(l) && ev(r)
  {
  }

  lemma {:induction false} ConjunctionHolds(ev: Json -> bool, predicates: seq<Json>)
    requires Evaluation(ev) && predicates != []
    ensures ev(Conjunction(predicates).value) <==> forall p :: p in predicates ==> ev(p)
  {
    hide And, Evaluation;
    var init, last := Snoc(predicates);
    if init != [] {
      ConjunctionHolds(ev, init);
      AndHolds(ev, Conjunction(init).value, last);
    }
  }

  /** The composed row predicate is the conjunction of all declared ones. */
  lemma {:induction false} PredicateIsConjunction(digest: Json -> string, ev: Json -> bool, docs: seq<Json>)
    requires Composed(digest, docs).Some? && Evaluation(ev)
    ensures var rowPredicate := Composed(digest, docs).value.rowPredicate;
      && (rowPredicate.Some? <==> HasPredicate(docs))
      && (rowPredicate.Some? ==> (ev(rowPredicate.value) <==> AllHold(ev, docs)))
    decreases |docs|
  {
    hide Read, AllSame, Conjunction, MinOf, Retained, And, DeclaredColumns, DeclaredPredicates, DeclaredPurposes,
      DeclaredTtls, Evaluation;
    if docs != [] {
      var init, last := Snoc(docs);
      UnfoldComposed(digest, docs);
      ReadParts(last);
      hide Composed;
      PredicateIsConjunction(digest, ev, init);
      var r, d := Composed(digest, init).value, Read(last).value;
      if d.predicates != [] {
        ConjunctionHolds(ev, d.predicates);
        if r.rowPredicate.Some? {
          AndHolds(ev, r.rowPredicate.value, Conjunction(d.predicates).value);
        }
      }
      assert HasPredicate(docs) <==> HasPredicate(init) || d.predicates != [];
      assert AllHold(ev, docs) <==> AllHold(ev, init) && forall p :: p in d.predicates ==> ev(p);
      if !HasPredicate(init) {
        assert AllHold(ev, init);
      }
    }
  }

  // ---- TTL ----

  ghost predicate DeclaresTtl(docs: seq<Json>, ttl: nat) {
    exists d :: d in docs && DeclaredTtls(d).Some? && ttl in DeclaredTtls(d).value
  }

  /** The composed TTL is the least declared one. */
  lemma {:induction false} TtlIsMinimum(digest: Json -> string, docs: seq<Json>)
    requires Composed(digest, docs).Some?
    ensures var ttl := Composed(digest, docs).value.maxTtl;
      && (ttl.None? ==> forall t :: !DeclaresTtl(docs, t))
      && (ttl.Some? ==> DeclaresTtl(docs, ttl.value) && forall t :: DeclaresTtl(docs, t) ==> ttl.value <= t)
    decreases |docs|
  {
    hide Read, AllSame, Conjunction, MinOf, Retained, And, DeclaredColumns, DeclaredPredicates, DeclaredPurposes,
      DeclaredTtls;
    if docs != [] {
      var init, last := Snoc(docs);
      UnfoldComposed(digest, docs);
      ReadParts(last);
      hide Composed;
      TtlIsMinimum(digest, init);
      var r, d := Composed(digest, init).value, Read(last).value;
      forall t ensures DeclaresTtl(docs, t) <==> DeclaresTtl(init, t) || t in d.ttls {
      }
      hide DeclaresTtl;
      var least := MinOf(d.ttls);
      assert least.None? ==> forall t :: t !in d.ttls;
    }
  }

  // ---- policy hashes ----

  /** The restriction carries the digest of every document, in the order of the documents. */
  lemma {:induction false} PolicyHashesInOrder(digest: Json -> string, docs: seq<Json>)
    requires Composed(digest, docs).Some?
    ensures var hashes := Composed(digest, docs).value.policyHashes;
      |hashes| == |docs| && forall i :: 0 <= i < |docs| ==> hashes[i] == digest(docs[i])
    decreases |docs|
  {
    hide Read, AllSame, Conjunction, MinOf, Retained, And;
    if docs != [] {
      var init, last := Snoc(docs);
      UnfoldComposed(digest, docs);
      hide Composed;
      PolicyHashesInOrder(digest, init);
    }
  }

  // ---- order and growth ----

  /** The two restrictions restrict alike. */
  ghost predicate Alike(ev: Json -> bool, r: Restriction, s: Restriction) {
    && (r.allowedColumns.Some? <==> s.allowedColumns.Some?)
    && (r.allowedColumns.Some? ==>
          forall c :: c in r.allowedColumns.value <==> c in s.allowedColumns.value)
    && (r.rowPredicate.Some? <==> s.rowPredicate.Some?)
    && (r.rowPredicate.Some? ==> (ev(r.rowPredicate.value) <==> ev(s.rowPredicate.value)))
    && r.purpose == s.purpose && r.maxTtl == s.maxTtl
  }

  /** `s` allows nothing that `r` forbids. */
  ghost predicate Narrower(ev: Json -> bool, r: Restriction, s: Restriction) {
    && (r.allowedColumns.Some? ==>
          s.allowedColumns.Some? && forall c :: c in s.allowedColumns.value ==> c in r.allowedColumns.value)
    && (r.rowPredicate.Some? ==>
          s.rowPredicate.Some? && (ev(s.rowPredicate.value) ==> ev(r.rowPredicate.value)))
    && (r.purpose.Some? ==> s.purpose == r.purpose)
    && (r.maxTtl.Some? ==> s.maxTtl.Some? && s.maxTtl.value <= r.maxTtl.value)
  }

  /** Adding policies, anywhere in the list, never widens any component. */
  lemma MorePoliciesNarrow(digest: Json -> string, ev: Json -> bool, some: seq<Json>, all: seq<Json>)
    requires Evaluation(ev) && forall d :: d in some ==> d in all
    ensures Composed(digest, all).Some? ==>
              && Composed(digest, some).Some?
              && Narrower(ev, Composed(digest, some).value, Composed(digest, all).value)
  {
    hide Composed, DeclaredColumns, DeclaredPredicates, DeclaredPurposes, DeclaredTtls;
    CompositionSucceeds(digest, some);
    CompositionSucceeds(digest, all);
    if Composed(digest, all).Some? {
      assert forall p :: Declares(some, p) ==> Declares(all, p);
      assert PurposesAgree(some);
      ColumnsAreIntersection(digest, some);
      ColumnsAreIntersection(digest, all);
      PredicateIsConjunction(digest, ev, some);
      PredicateIsConjunction(digest, ev, all);
      TtlIsMinimum(digest, some);
      TtlIsMinimum(digest, all);
      NarrowerParts(ev, some, all);
      hide Declares, ListsColumns, InAllLists, HasPredicate, AllHold, DeclaresTtl;
      var r, s := Composed(digest, some).value, Composed(digest, all).value;
      if r.purpose.Some? {
        assert Declares(all, r.purpose.value);
      }
    }
  }

  lemma NarrowerParts(ev: Json -> bool, some: seq<Json>, all: seq<Json>)
    requires forall d :: d in some ==> d in all
    ensures ListsColumns(some) ==> ListsColumns(all)
    ensures forall c :: InAllLists(all, c) ==> InAllLists(some, c)
    ensures HasPredicate(some) ==> HasPredicate(all)
    ensures AllHold(ev, all) ==> AllHold(ev, some)
    ensures forall t :: DeclaresTtl(some, t) ==> DeclaresTtl(all, t)
  {
    hide DeclaredColumns, DeclaredPredicates, DeclaredPurposes, DeclaredTtls;
  }

  /** Folding the same policies in any order, or with repetitions, succeeds or fails alike, and
      restricts alike. */
  lemma FoldIgnoresOrder(digest: Json -> string, ev: Json -> bool, a: seq<Json>, b: seq<Json>)
    requires Evaluation(ev) && forall d :: d in a <==> d in b
    ensures Composed(digest, a).Some? <==> Composed(digest, b).Some?
    ensures Composed(digest, a).Some? ==> Alike(ev, Composed(digest, a).value, Composed(digest, b).value)
  {
    hide Composed, And;
    MorePoliciesNarrow(digest, ev, a, b);
    MorePoliciesNarrow(digest, ev, b, a);
  }

  lemma PermutationFoldsAlike(digest: Json -> string, ev: Json -> bool, a: seq<Json>, b: seq<Json>)
    requires Evaluation(ev) && multiset(a) == multiset(b)
    ensures Composed(digest, a).Some? <==> Composed(digest, b).Some?
    ensures Composed(digest, a).Some? ==> Alike(ev, Composed(digest, a).value, Composed(digest, b).value)
  {
    hide Composed;
    assert forall d :: d in a <==> d in multiset(a);
    assert forall d :: d in b <==> d in multiset(b);
    FoldIgnoresOrder(digest, ev, a, b);
  }
}
