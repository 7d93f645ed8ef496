/** Column lists: removing repetitions and keeping the allowed ones.

    Both operations have a hash-set form for long lists and a linear form for short
    ones.  `FirstOccurrences` and `Retained` are what either form computes. */
module Columns {
  import opened Json

  const LINEAR_COLUMN_LOOKUP_MAX: nat := 32

  function FirstOccurrences<T(==)>(columns: seq<T>): seq<T> {
    if columns == [] then [] else
    var init, last := columns[..|columns| - 1], columns[|columns| - 1];
    if last in init then FirstOccurrences(init) else FirstOccurrences(init) + [last]
  }

  function Retained<T(==)>(requested: seq<T>, allowed: seq<T>): seq<T> {
    if requested == [] then [] else
    var init, last := requested[..|requested| - 1], requested[|requested| - 1];
    if last in allowed then Retained(init, allowed) + [last] else Retained(init, allowed)
  }

  /** Keeps the items whose flag is set. */
  function Kept<T>(items: seq<T>, keep: seq<bool>): seq<T>
    requires |keep| == |items|
  {
    if items == [] then [] else
    var n := |items| - 1;
    Kept(items[..n], keep[..n]) + (if keep[n] then [items[n]] else [])
  }

  method DedupColumns<T(==)>(columns: seq<T>) returns (out: seq<T>)
    ensures out == FirstOccurrences(columns)
  {
    if |columns| > LINEAR_COLUMN_LOOKUP_MAX {
      out := DedupHashed(columns);
      return;
    }
    out := [];
    for i := 0 to |columns|
      invariant out == FirstOccurrences(columns[..i])
    {
      SameColumns(columns[..i]);
      assert columns[..i + 1][..i] == columns[..i];
      if columns[i] !in out {
        out := out + [columns[i]];
      }
    }
    assert columns[..|columns|] == columns;
  }

  /** The form for long lists: a first pass flags the columns not seen before, a second keeps them. */
  method DedupHashed<T(==)>(columns: seq<T>) returns (out: seq<T>)
    ensures out == FirstOccurrences(columns)
  {
    var seen: set<T> := {};
    var keep: seq<bool> := [];
    assert columns[..0] == [];
    for i := 0 to |columns|
      invariant |keep| == i
      invariant seen == set c | c in columns[..i]
      invariant Kept(columns[..i], keep) == FirstOccurrences(columns[..i])
    {
      assert columns[..i + 1][..i] == columns[..i];
      assert (keep + [columns[i] !in seen])[..i] == keep;
      keep := keep + [columns[i] !in seen];
      seen := seen + {columns[i]};
    }
    assert columns[..|columns|] == columns;
    out := KeepFlagged(columns, keep);
  }

  method KeepFlagged<T>(columns: seq<T>, keep: seq<bool>) returns (out: seq<T>)
    requires |keep| == |columns|
    ensures out == Kept(columns, keep)
  {
    out := [];
    assert keep[..0] == [];
    for i := 0 to |columns|
      invariant out == Kept(columns[..i], keep[..i])
    {
      assert columns[..i + 1][..i] == columns[..i] && keep[..i + 1][..i] == keep[..i];
      if keep[i] {
        out := out + [columns[i]];
      }
    }
    assert columns[..|columns|] == columns && keep[..|columns|] == keep;
  }

  method RetainAllowedColumns<T(==)>(requested: seq<T>, allowed: seq<T>) returns (out: seq<T>)
    ensures out == Retained(requested, allowed)
  {
    out := [];
    if |allowed| <= LINEAR_COLUMN_LOOKUP_MAX {
      for i := 0 to |requested|
        invariant out == Retained(requested[..i], allowed)
      {
        assert requested[..i + 1][..i] == requested[..i];
        var any := false;
        for j := 0 to |allowed|
          invariant any <==> requested[i] in allowed[..j]
        {
          any := any || allowed[j] == requested[i];
        }
        if any {
          out := out + [requested[i]];
        }
      }
    } else {
      var lookup := set a | a in allowed;
      for i := 0 to |requested|
        invariant out == Retained(requested[..i], allowed)
      {
        assert requested[..i + 1][..i] == requested[..i];
        if requested[i] in lookup {
          out := out + [requested[i]];
        }
      }
    }
    assert requested[..|requested|] == requested;
  }

  /** `a` can be obtained from `b` by leaving items out. */
  ghost predicate InOrder<T>(a: seq<T>, b: seq<T>)
    decreases |b|
  {
    if a == [] then true
    else if b == [] then false
    else InOrder(a, b[..|b| - 1]) || (a[|a| - 1] == b[|b| - 1] && InOrder(a[..|a| - 1], b[..|b| - 1]))
  }

  lemma {:induction false} SameColumns<T>(columns: seq<T>)
    ensures forall c :: c in FirstOccurrences(columns) <==> c in columns
    ensures DuplicateFree(FirstOccurrences(columns))
    ensures InOrder(FirstOccurrences(columns), columns)
  {
    if columns != [] {
      SameColumns(columns[..|columns| - 1]);
    }
  }

  lemma {:induction false} RetainedMembers<T>(requested: seq<T>, allowed: seq<T>)
    ensures forall c :: c in Retained(requested, allowed) <==> c in requested && c in allowed
    ensures DuplicateFree(requested) ==> DuplicateFree(Retained(requested, allowed))
  {
    if requested != [] {
      RetainedMembers(requested[..|requested| - 1], allowed);
    }
  }

  /** Retaining keeps the requested order; keeping every item changes nothing. */
  lemma {:induction false} RetainedOrder<T>(requested: seq<T>, allowed: seq<T>)
    ensures InOrder(Retained(requested, allowed), requested)
    ensures |Retained(requested, allowed)| <= |requested|
    ensures |Retained(requested, allowed)| == |requested| ==> Retained(requested, allowed) == requested
  {
    if requested != [] {
      RetainedOrder(requested[..|requested| - 1], allowed);
    }
  }

  /** Retaining by one list and then by another is retaining by what the two have in common. */
  lemma {:induction false} RetainTwice<T>(requested: seq<T>, a: seq<T>, b: seq<T>)
    ensures Retained(Retained(requested, a), b) == Retained(requested, Retained(a, b))
  {
    if requested != [] {
      var init, last := requested[..|requested| - 1], requested[|requested| - 1];
      RetainTwice(init, a, b);
      RetainedMembers(a, b);
      if last in a {
        assert (Retained(init, a) + [last])[..|Retained(init, a)|] == Retained(init, a);
      }
    }
  }

  lemma {:induction false} RetainSame<T>(requested: seq<T>, a: seq<T>, b: seq<T>)
    requires forall c :: c in requested ==> (c in a <==> c in b)
    ensures Retained(requested, a) == Retained(requested, b)
  {
    if requested != [] {
      RetainSame(requested[..|requested| - 1], a, b);
    }
  }

  /** In a duplicate-free list, a sublist in order is what is retained by its own members. */
  lemma {:induction false} RetainedInOrder<T>(requested: seq<T>, sub: seq<T>)
    requires DuplicateFree(requested)
    ensures InOrder(sub, requested) <==> Retained(requested, sub) == sub
    decreases |requested|
  {
    RetainedMembers(requested, sub);
    if requested != [] {
      var n := |requested| - 1;
      var init, last := requested[..n], requested[n];
      assert last !in init;
      if sub != [] && sub[|sub| - 1] == last {
        var less := sub[..|sub| - 1];
        RetainedInOrder(init, less);
        RetainSame(init, sub, less);
        InOrderMembers(sub, init);
      } else {
        RetainedInOrder(init, sub);
      }
      if Retained(requested, sub) == sub && last in sub {
        assert sub[|sub| - 1] == last;
      }
      if InOrder(sub, requested) && last in sub {
        InOrderMembers(sub, init);
      }
    }
  }

  lemma {:induction false} InOrderMembers<T>(a: seq<T>, b: seq<T>)
    ensures InOrder(a, b) ==> |a| <= |b| && forall x :: x in a ==> x in b
    decreases |b|
  {
    if a != [] && b != [] {
      InOrderMembers(a, b[..|b| - 1]);
      InOrderMembers(a[..|a| - 1], b[..|b| - 1]);
      assert forall x :: x in a ==> x in a[..|a| - 1] || x == a[|a| - 1];
    }
  }
}
